/**
 What runs of overlapping calls keep of applications and appeals: a resolved appeal, the answers,
 and what a grant's three writes leave when other calls write between them.
 */
module Appeals {
  import opened Wrappers
  import opened Text
  import opened Gate
  import opened Lifecycle

  // ---- what a call that has read may still write ----

  /** The application is there, and so is the appeal a write rests on, with the answers the call read. */
  predicate WriteFits(w: World, write: Write)
  {
    !write.Creates? ==>
      write.id < |w.applications| &&
      (write.TakesAnswers? || write.Closes? ==> w.applications[write.id].appeal.Some?) &&
      (write.TakesAnswers? ==> w.applications[write.id].appeal.value.answers == write.answers)
  }

  ghost predicate Sound(d: Desk)
  {
    forall task, i :: task in d.tasks && 0 <= i < |task| ==> WriteFits(d.world, task[i])
  }

  lemma OpenedIsSound(w: World)
    ensures Sound(Opened(w))
  {
  }

  lemma FitsLater(w: World, write: Write, other: Write)
    requires After(w, write).Some? && WriteFits(w, other)
    ensures WriteFits(After(w, write).value, other)
  {
  }

  lemma StepKeepsSound(d: Desk, step: Step)
    requires Sound(d)
    ensures Sound(Taken(d, step))
  {
    match step
    case Start(a) =>
    case Go(task) =>
      if task in d.tasks && task != [] && After(d.world, task[0]).Some? {
        var r := Taken(d, step);
        forall other, i | other in r.tasks && 0 <= i < |other| ensures WriteFits(r.world, other[i]) {
          if other in d.tasks {
            FitsLater(d.world, task[0], other[i]);
          } else {
            assert other[i] == task[i + 1];
            FitsLater(d.world, task[0], task[i + 1]);
          }
        }
      }
  }

  lemma {:induction false} PlayIsSound(d: Desk, steps: seq<Step>)
    requires Sound(d)
    ensures Sound(Play(d, steps))
    decreases |steps|
  {
    if steps != [] {
      PlayIsSound(d, steps[..|steps| - 1]);
      StepKeepsSound(Play(d, steps[..|steps| - 1]), steps[|steps| - 1]);
    }
  }

  // ---- what is not taken back ----

  /** The appeal that follows one on the same application: the same answers, resolved at most once. */
  predicate AppealContinues(before: Appeal, after: Option<Appeal>)
  {
    after.Some? && after.value.answers == before.answers && (before.status != AppealPending ==> after.value == before)
  }

  /** Answers change only to those of an appeal. */
  predicate AnswersContinue(before: Application, after: Application)
  {
    after.answers == before.answers || (after.appeal.Some? && after.answers == after.appeal.value.answers)
  }

  /** The applicant, a resolved appeal and, without a grant, the answers. */
  predicate Continues(before: Application, after: Application)
  {
    before.userId == after.userId && before.repoId == after.repoId && AnswersContinue(before, after) &&
    (before.appeal.Some? ==> AppealContinues(before.appeal.value, after.appeal))
  }

  ghost predicate AllContinue(w: World, u: World)
  {
    |w.applications| <= |u.applications| &&
    forall i :: 0 <= i < |w.applications| ==> Continues(w.applications[i], u.applications[i])
  }

  lemma {:induction false} ContinuesIsTransitive(a: Application, b: Application, c: Application)
    requires Continues(a, b) && Continues(b, c)
    ensures Continues(a, c)
  {
  }

  lemma AllContinueOn(w: World, u: World, v: World)
    requires AllContinue(w, u) && AllContinue(u, v)
    ensures AllContinue(w, v)
  {
    forall i | 0 <= i < |w.applications| ensures Continues(w.applications[i], v.applications[i]) {
      ContinuesIsTransitive(w.applications[i], u.applications[i], v.applications[i]);
    }
  }

  /** An appeal already resolved is resolved another way. */
  predicate Recloses(w: World, write: Write)
  {
    write.Closes? && write.id < |w.applications| && w.applications[write.id].appeal.Some? &&
    w.applications[write.id].appeal.value.status !in {AppealPending, ResolvedStatus(write.resolution)}
  }

  lemma WriteContinues(w: World, write: Write)
    requires WriteFits(w, write) && After(w, write).Some?
    ensures AllContinue(w, After(w, write).value) <==> !Recloses(w, write)
  {
    var u := After(w, write).value;
    if !write.Creates? {
      assert Continues(w.applications[write.id], u.applications[write.id]) <==> !Recloses(w, write);
    }
  }

  predicate StepRecloses(d: Desk, step: Step)
  {
    step.Go? && step.task != [] && Makes(d, step, step.task[0]) && Recloses(d.world, step.task[0])
  }

  lemma StepContinues(d: Desk, step: Step)
    requires Sound(d)
    ensures AllContinue(d.world, Taken(d, step).world) <==> !StepRecloses(d, step)
  {
    StepMakes(d, step);
    if step.Go? && step.task != [] && Makes(d, step, step.task[0]) {
      WriteContinues(d.world, step.task[0]);
    }
  }

  ghost predicate EachContinues(d: Desk, steps: seq<Step>)
  {
    forall k :: 0 <= k < |steps| ==> AllContinue(Play(d, steps[..k]).world, Taken(Play(d, steps[..k]), steps[k]).world)
  }

  /**
   Over every run: each step keeps every application, every resolved appeal as it was resolved and
   the answers, but for taking an appeal's, if and only if none resolves a resolved appeal another
   way; and then so does the run as a whole.
   */
  lemma {:induction false} HistoryContinues(d: Desk, steps: seq<Step>)
    requires Sound(d)
    ensures EachContinues(d, steps) <==> Never(StepRecloses, d, steps)
    ensures Never(StepRecloses, d, steps) ==> AllContinue(d.world, Play(d, steps).world)
    decreases |steps|
  {
    forall k | 0 <= k < |steps|
      ensures AllContinue(Play(d, steps[..k]).world, Taken(Play(d, steps[..k]), steps[k]).world) <==>
        !StepRecloses(Play(d, steps[..k]), steps[k])
    {
      PlayIsSound(d, steps[..k]);
      StepContinues(Play(d, steps[..k]), steps[k]);
    }
    if steps != [] && Never(StepRecloses, d, steps) {
      var init := steps[..|steps| - 1];
      NeverOneMore(StepRecloses, d, steps);
      HistoryContinues(d, init);
      PlayIsSound(d, init);
      StepContinues(Play(d, init), steps[|steps| - 1]);
      AllContinueOn(d.world, Play(d, init).world, Play(d, steps).world);
    }
  }

  // ---- the status of an appeal ----

  /** The status some writes leave an appeal with: the last that closes it decides. */
  function AppealAfter(writes: seq<Write>, id: nat, before: AppealStatus): AppealStatus
  {
    if writes == [] then before
    else
      var last := writes[|writes| - 1];
      if last.Closes? && last.id == id then ResolvedStatus(last.resolution) else AppealAfter(writes[..|writes| - 1], id, before)
  }

  lemma {:induction false} AppealAfterConcat(a: seq<Write>, b: seq<Write>, id: nat, before: AppealStatus)
    ensures AppealAfter(a + b, id, before) == AppealAfter(b, id, AppealAfter(a, id, before))
    decreases |b|
  {
    if b == [] {
      assert a + b == a;
    } else {
      assert (a + b)[..|a + b| - 1] == a + b[..|b| - 1];
      AppealAfterConcat(a, b[..|b| - 1], id, before);
    }
  }

  predicate HasAppeal(w: World, id: nat) { id < |w.applications| && w.applications[id].appeal.Some? }

  predicate HasPendingAppeal(w: World, id: nat) { HasAppeal(w, id) && w.applications[id].appeal.value.status == AppealPending }

  lemma StepAppeal(d: Desk, step: Step, id: nat)
    requires HasAppeal(d.world, id)
    ensures var r := Taken(d, step); var before := d.world.applications[id].appeal.value;
      HasAppeal(r.world, id) &&
      r.world.applications[id].appeal.value == before.(status := AppealAfter(Since(d, r), id, before.status))
  {
    StepMakes(d, step);
    if Taken(d, step).done != d.done {
      assert Since(d, Taken(d, step)) == [step.task[0]] && [step.task[0]][..0] == [];
    }
  }

  /** Over every run an appeal keeps its answers and has the status the writes made on it leave. */
  lemma {:induction false} AppealFollowsWrites(d: Desk, steps: seq<Step>, id: nat)
    requires HasAppeal(d.world, id)
    ensures var r := Play(d, steps); var before := d.world.applications[id].appeal.value;
      HasAppeal(r.world, id) &&
      r.world.applications[id].appeal.value == before.(status := AppealAfter(Since(d, r), id, before.status))
    decreases |steps|
  {
    if steps != [] {
      var mid, r := Play(d, steps[..|steps| - 1]), Play(d, steps);
      AppealFollowsWrites(d, steps[..|steps| - 1], id);
      SinceOneMore(d, steps);
      AppealAfterConcat(Since(d, mid), Since(mid, r), id, d.world.applications[id].appeal.value.status);
      StepAppeal(mid, steps[|steps| - 1], id);
    }
  }

  /**
   A resolution that found the appeal waiting and closes it later changes how it was resolved
   exactly when the last write made on the appeal since resolved it another way.
   */
  lemma LateResolution(d: Desk, id: nat, resolution: Resolution, between: seq<Step>)
    requires HasPendingAppeal(d.world, id)
    ensures var r := Play(d, between);
      Recloses(r.world, Closes(id, resolution)) <==>
      AppealAfter(Since(d, r), id, AppealPending) !in {AppealPending, ResolvedStatus(resolution)}
  {
    AppealFollowsWrites(d, between, id);
  }

  // ---- what a grant leaves ----

  function GrantWrites(id: nat, note: Option<Text>, answers: Text): seq<Write>
  {
    [Approves(id, note), TakesAnswers(id, answers), Closes(id, Grant)]
  }

  predicate AnswersTaken(w: World, id: nat) { HasAppeal(w, id) && w.applications[id].answers == w.applications[id].appeal.value.answers }

  lemma {:induction false} AnswersStayTaken(d: Desk, steps: seq<Step>, id: nat)
    requires Sound(d) && AnswersTaken(d.world, id)
    ensures AnswersTaken(Play(d, steps).world, id)
    decreases |steps|
  {
    if steps != [] {
      var init, last := steps[..|steps| - 1], steps[|steps| - 1];
      AnswersStayTaken(d, init, id);
      PlayIsSound(d, init);
      StepMakes(Play(d, init), last);
      if Play(d, steps).done != Play(d, init).done {
        assert WriteFits(Play(d, init).world, last.task[0]);
      }
    }
  }

  /** The next write of a task is made. */
  lemma GoMakes(d: Desk, task: seq<Write>)
    requires Sound(d) && task in d.tasks && task != [] && (task[0].Approves? || task[0].TakesAnswers? || task[0].Closes?)
    ensures WriteFits(d.world, task[0]) && After(d.world, task[0]).Some?
    ensures var r := Taken(d, Go(task));
      Sound(r) && Some(r.world) == After(d.world, task[0]) && (|task| > 1 ==> task[1..] in r.tasks) && Since(d, r) == [task[0]]
  {
    assert WriteFits(d.world, task[0]);
    StepKeepsSound(d, Go(task));
  }

  lemma ThenGo(d: Desk, steps: seq<Step>, task: seq<Write>, id: nat)
    requires Sound(d) && HasAppeal(d.world, id) && task in d.tasks && task != [] && (task[0].TakesAnswers? || task[0].Closes?)
    requires task[0].id == id
    ensures var r := Play(d, steps); var next := Taken(r, Go(task)); var appeal := d.world.applications[id].appeal.value;
      Sound(next) && (|task| > 1 ==> task[1..] in next.tasks) && HasAppeal(r.world, id) && HasAppeal(next.world, id) &&
      r.world.applications[id].appeal.value.answers == appeal.answers &&
      r.world.applications[id].status == StatusAfter(Since(d, r), id, d.world.applications[id].status) &&
      Some(next.world.applications[id]) == RowAfter(r.world.applications[id], task[0])
  {
    PlayIsSound(d, steps);
    PlayOnlyAdds(d, steps);
    StatusFollowsWrites(d, steps, id);
    AppealFollowsWrites(d, steps, id);
    GoMakes(Play(d, steps), task);
  }

  /** The last two writes, the answers and the closing. */
  lemma GrantCloses(d: Desk, id: nat, answers: Text, first: seq<Step>, second: seq<Step>)
    requires Sound(d) && HasAppeal(d.world, id) && d.world.applications[id].appeal.value.answers == answers
    requires [TakesAnswers(id, answers), Closes(id, Grant)] in d.tasks
    ensures var task := [TakesAnswers(id, answers), Closes(id, Grant)];
      var answered := Taken(Play(d, first), Go(task)); var closed := Taken(Play(answered, second), Go([Closes(id, Grant)]));
      AnswersTaken(closed.world, id) && closed.world.applications[id].appeal.value == Appeal(Granted, answers) &&
      closed.world.applications[id].status ==
        StatusAfter(Since(answered, Play(answered, second)), id, StatusAfter(Since(d, Play(d, first)), id, d.world.applications[id].status))
  {
    var task := [TakesAnswers(id, answers), Closes(id, Grant)];
    assert task[1..] == [Closes(id, Grant)];
    ThenGo(d, first, task, id);
    var answered := Taken(Play(d, first), Go(task));
    AnswersStayTaken(answered, second, id);
    ThenGo(answered, second, [Closes(id, Grant)], id);
  }

  /**
   A grant's three writes with anything in between: the appeal ends granted and the application has
   its answers, and its status is what the others' writes since the approval leave; so denied with
   the appeal granted, exactly when the last of them on it denied it or sent it back to denied.
   */
  lemma GrantLeaves(d: Desk, id: nat, note: Option<Text>, answers: Text, first: seq<Step>, second: seq<Step>)
    requires Sound(d) && GrantWrites(id, note, answers) in d.tasks
    ensures var approved := Taken(d, Go(GrantWrites(id, note, answers)));
      var answered := Taken(Play(approved, first), Go([TakesAnswers(id, answers), Closes(id, Grant)]));
      var closed := Taken(Play(answered, second), Go([Closes(id, Grant)]));
      AnswersTaken(closed.world, id) && closed.world.applications[id].appeal.value == Appeal(Granted, answers) &&
      closed.world.applications[id].status ==
        StatusAfter(Since(answered, Play(answered, second)), id, StatusAfter(Since(approved, Play(approved, first)), id, Approved))
  {
    var g := GrantWrites(id, note, answers);
    assert WriteFits(d.world, g[1]) && g[1..] == [TakesAnswers(id, answers), Closes(id, Grant)];
    GoMakes(d, g);
    GrantCloses(Taken(d, Go(g)), id, answers, first, second);
  }

  /**
   A grant that stopped after the approval leaves the application approved and the appeal as it was.
   Whatever happens then, it can be granted again, given the approvals and the coverage, exactly if
   no write made since closed the appeal and the last that gave the application a status denied it.
   */
  lemma InterruptedGrantSticks(
    d: Desk, id: nat, note: Option<Text>, answers: Text, steps: seq<Step>, again: Option<Text>, later: int)
    requires Sound(d) && GrantWrites(id, note, answers) in d.tasks && HasPendingAppeal(d.world, id)
    ensures var approved := Taken(d, Go(GrantWrites(id, note, answers)));
      id < |approved.world.applications| && approved.world.applications[id].status == Approved && HasPendingAppeal(approved.world, id)
    ensures var approved := Taken(d, Go(GrantWrites(id, note, answers))); var r := Play(approved, steps);
      Stops(r.world, Resolve(id, Grant, r.world.settings.requireApprovalCount, true, again, later)) == None <==>
      AppealAfter(Since(approved, r), id, AppealPending) == AppealPending && StatusAfter(Since(approved, r), id, Approved) == Denied
  {
    GoMakes(d, GrantWrites(id, note, answers));
    var approved := Taken(d, Go(GrantWrites(id, note, answers)));
    StatusFollowsWrites(approved, steps, id);
    AppealFollowsWrites(approved, steps, id);
  }

  // ---- calls nothing overlaps ----

  function AfterAll(w: World, writes: seq<Write>): Option<World>
    decreases |writes|
  {
    if writes == [] then Some(w)
    else
      match After(w, writes[0])
      case None => None
      case Some(u) => AfterAll(u, writes[1..])
  }

  lemma AfterOne(w: World, write: Write)
    ensures AfterAll(w, [write]) == After(w, write)
  {
  }

  lemma AfterThree(w: World, a: Write, b: Write, c: Write)
    requires After(w, a).Some? && After(After(w, a).value, b).Some? && After(After(After(w, a).value, b).value, c).Some?
    ensures AfterAll(w, [a, b, c]) == After(After(After(w, a).value, b).value, c)
  {
    var u := After(w, a).value;
    assert [a, b, c][1..] == [b, c] && [b, c][1..] == [c];
    assert AfterAll(u, [b, c]) == AfterAll(After(u, b).value, [c]);
    AfterOne(After(u, b).value, c);
  }

  /** Nothing overlapping, every call keeps cooldown dates placed, resolved appeals and the answers. */
  lemma CallKeeps(w: World, a: Action)
    requires Stops(w, a) == None
    ensures AfterAll(w, WritesOf(w, a)).Some?
    ensures var u := AfterAll(w, WritesOf(w, a)).value;
      AllContinue(w, u) && (CooldownsPlaced(w) ==> CooldownsPlaced(u))
  {
    if a.Resolve? && a.resolution != Reject {
      ThreeWritesKeep(w, a);
    } else {
      AfterOne(w, WritesOf(w, a)[0]);
    }
  }

  lemma ThreeWritesKeep(w: World, a: Action)
    requires Stops(w, a) == None && a.Resolve? && a.resolution != Reject
    ensures AfterAll(w, WritesOf(w, a)).Some?
    ensures var u := AfterAll(w, WritesOf(w, a)).value;
      AllContinue(w, u) && (CooldownsPlaced(w) ==> CooldownsPlaced(u))
  {
    var writes := WritesOf(w, a);
    AfterThree(w, writes[0], writes[1], writes[2]);
  }

  /** An answer to apply again that stopped before it closed the appeal can simply be given again. */
  lemma InterruptedReopenRecovers(w: World, id: nat, until: Option<int>, reason: Option<Text>, later: int)
    requires Stops(w, Resolve(id, AllowResubmit, 0, false, reason, later)) == None
    ensures var a := Resolve(id, AllowResubmit, 0, false, reason, later);
      After(w, Reopens(id, until)).Some? &&
      var stopped := After(w, Reopens(id, until)).value;
      Stops(stopped, a) == None && AfterAll(stopped, WritesOf(stopped, a)) == AfterAll(w, WritesOf(w, a))
  {
    var a := Resolve(id, AllowResubmit, 0, false, reason, later);
    var stopped, writes := After(w, Reopens(id, until)).value, WritesOf(w, a);
    assert After(w, writes[0]).value.applications == w.applications;
    assert After(stopped, writes[0]).value.applications == stopped.applications;
    assert After(stopped, writes[1]).value.applications == After(w, writes[1]).value.applications;
    AfterThree(w, writes[0], writes[1], writes[2]);
    AfterThree(stopped, writes[0], writes[1], writes[2]);
  }
}
