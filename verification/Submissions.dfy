/** Whether a person ever has two open applications, over runs of overlapping calls. */
module Submissions {
  import opened Wrappers
  import opened Text
  import opened Gate
  import opened Lifecycle

  predicate IsOpen(w: World, i: nat)
    requires i < |w.applications|
  {
    w.applications[i].status == Submitted
  }

  predicate IsLatest(w: World, i: nat)
    requires i < |w.applications|
  {
    Latest(w.applications, w.applications[i].userId, None) == Some(i)
  }

  /** Only the newest application of a person is open. */
  predicate OneOpen(w: World)
  {
    forall i :: 0 <= i < |w.applications| && IsOpen(w, i) ==> IsLatest(w, i)
  }

  predicate NewestOpen(w: World, userId: nat)
  {
    var last := Latest(w.applications, userId, None);
    last.Some? && IsOpen(w, last.value)
  }

  /** Then nobody has two. */
  lemma OneOpenEach(w: World, i: nat, j: nat)
    requires OneOpen(w) && i < |w.applications| && j < |w.applications| && IsOpen(w, i) && IsOpen(w, j)
    requires w.applications[i].userId == w.applications[j].userId
    ensures i == j
  {
    assert IsLatest(w, i) && IsLatest(w, j);
  }

  // ---- the newest application ----

  lemma {:induction false} LatestIgnoresDetails(before: seq<Application>, after: seq<Application>, userId: nat)
    requires |before| == |after|
    requires forall i :: 0 <= i < |before| ==> before[i].userId == after[i].userId && before[i].repoId == after[i].repoId
    ensures Latest(before, userId, None) == Latest(after, userId, None)
    decreases |before|
  {
    if before != [] {
      LatestIgnoresDetails(before[..|before| - 1], after[..|after| - 1], userId);
    }
  }

  lemma LatestAfterCreate(apps: seq<Application>, app: Application, userId: nat)
    ensures Latest(apps + [app], userId, None) == if app.userId == userId then Some(|apps|) else Latest(apps, userId, None)
  {
    assert (apps + [app])[..|apps|] == apps;
  }

  lemma WriteKeepsLatest(w: World, write: Write, userId: nat)
    requires After(w, write).Some?
    ensures Latest(After(w, write).value.applications, userId, None) ==
      if write.Creates? && write.userId == userId then Some(|w.applications|) else Latest(w.applications, userId, None)
  {
    if write.Creates? {
      LatestAfterCreate(w.applications, NewApplication(write.userId, write.answers), userId);
    } else {
      LatestIgnoresDetails(w.applications, After(w, write).value.applications, userId);
    }
  }

  // ---- exactly when a write leaves two open ----

  /** An application of somebody whose newest is open, or an application sent back to review that a newer one replaced. */
  predicate OpensSecond(w: World, write: Write)
  {
    (write.Creates? && NewestOpen(w, write.userId)) ||
    (write.SendsBack? && write.target == ToSubmitted && write.id < |w.applications| && !IsLatest(w, write.id))
  }

  lemma CreateKeepsOneOpen(w: World, write: Write)
    requires OneOpen(w) && write.Creates?
    ensures OneOpen(After(w, write).value) <==> !OpensSecond(w, write)
  {
    var u, apps := After(w, write).value, w.applications;
    forall i | 0 <= i < |apps| ensures IsLatest(u, i) == (IsLatest(w, i) && apps[i].userId != write.userId) {
      WriteKeepsLatest(w, write, apps[i].userId);
    }
    WriteKeepsLatest(w, write, write.userId);
    assert IsLatest(u, |apps|);
    if OpensSecond(w, write) {
      var last := Latest(apps, write.userId, None).value;
      assert IsOpen(u, last) && !IsLatest(u, last);
    } else {
      forall i | 0 <= i < |u.applications| && IsOpen(u, i) ensures IsLatest(u, i) {
        if i < |apps| { assert IsOpen(w, i) && IsLatest(w, i); }
      }
    }
  }

  lemma OtherKeepsOneOpen(w: World, write: Write)
    requires OneOpen(w) && !write.Creates? && After(w, write).Some?
    ensures OneOpen(After(w, write).value) <==> !OpensSecond(w, write)
  {
    var u := After(w, write).value;
    forall i | 0 <= i < |w.applications| ensures IsLatest(u, i) == IsLatest(w, i) {
      WriteKeepsLatest(w, write, w.applications[i].userId);
    }
    forall i | 0 <= i < |w.applications|
      ensures IsOpen(u, i) <==> (if StatusOf(write, i).Some? then StatusOf(write, i).value == Submitted else IsOpen(w, i))
    {
      WriteStatus(w, write, i);
    }
    if OpensSecond(w, write) {
      assert IsOpen(u, write.id) && !IsLatest(u, write.id);
    }
  }

  predicate StepOpensSecond(d: Desk, step: Step)
  {
    step.Go? && step.task != [] && Makes(d, step, step.task[0]) && OpensSecond(d.world, step.task[0])
  }

  lemma StepKeepsOneOpen(d: Desk, step: Step)
    requires OneOpen(d.world)
    ensures OneOpen(Taken(d, step).world) <==> !StepOpensSecond(d, step)
  {
    StepMakes(d, step);
    if step.Go? && step.task != [] && Makes(d, step, step.task[0]) {
      if step.task[0].Creates? {
        CreateKeepsOneOpen(d.world, step.task[0]);
      } else {
        OtherKeepsOneOpen(d.world, step.task[0]);
      }
    }
  }

  predicate OneOpenAt(d: Desk) { OneOpen(d.world) }

  /**
   Over every run, at every moment, only the newest application of a person is open, if and only if
   no application was created for somebody whose newest was open by then, and none sent back to
   review that a newer one had replaced.
   */
  lemma RunKeepsOneOpen(d: Desk, steps: seq<Step>)
    requires OneOpen(d.world)
    ensures Always(OneOpenAt, d, steps) <==> Never(StepOpensSecond, d, steps)
  {
    forall e: Desk, step: Step | OneOpenAt(e) ensures OneOpenAt(Taken(e, step)) <==> !StepOpensSecond(e, step) {
      StepKeepsOneOpen(e, step);
    }
    AlwaysUnless(OneOpenAt, StepOpensSecond, d, steps);
  }

  // ---- what happened between a submission's look and its write ----

  /** How many applications there are, which is a person's newest, and whether it is open. */
  datatype Newest = Newest(count: nat, id: Option<nat>, open: bool)

  function NewestOf(w: World, userId: nat): Newest
  {
    Newest(|w.applications|, Latest(w.applications, userId, None), NewestOpen(w, userId))
  }

  function NewestStep(n: Newest, write: Write, userId: nat): Newest
  {
    if write.Creates? then
      if write.userId == userId then Newest(n.count + 1, Some(n.count), true) else n.(count := n.count + 1)
    else if n.id.Some? && StatusOf(write, n.id.value).Some? then n.(open := StatusOf(write, n.id.value).value == Submitted)
    else n
  }

  /** What some writes make of it. */
  function NewestAfter(n: Newest, writes: seq<Write>, userId: nat): Newest
  {
    if writes == [] then n else NewestStep(NewestAfter(n, writes[..|writes| - 1], userId), writes[|writes| - 1], userId)
  }

  lemma {:induction false} NewestAfterConcat(n: Newest, a: seq<Write>, b: seq<Write>, userId: nat)
    ensures NewestAfter(n, a + b, userId) == NewestAfter(NewestAfter(n, a, userId), b, userId)
    decreases |b|
  {
    if b == [] {
      assert a + b == a;
    } else {
      assert (a + b)[..|a + b| - 1] == a + b[..|b| - 1];
      NewestAfterConcat(n, a, b[..|b| - 1], userId);
    }
  }

  lemma WriteNewest(w: World, write: Write, userId: nat)
    requires After(w, write).Some?
    ensures NewestOf(After(w, write).value, userId) == NewestStep(NewestOf(w, userId), write, userId)
  {
    WriteKeepsLatest(w, write, userId);
    var last := Latest(w.applications, userId, None);
    if last.Some? {
      WriteStatus(w, write, last.value);
    }
  }

  lemma StepNewest(d: Desk, step: Step, userId: nat)
    ensures NewestOf(Taken(d, step).world, userId) == NewestAfter(NewestOf(d.world, userId), Since(d, Taken(d, step)), userId)
  {
    StepMakes(d, step);
    if Taken(d, step).done != d.done {
      WriteNewest(d.world, step.task[0], userId);
      assert Since(d, Taken(d, step)) == [step.task[0]] && [step.task[0]][..0] == [];
    }
  }

  /** Over every run a person's newest application is the last created for them, with the status the writes on it leave. */
  lemma {:induction false} NewestFollowsWrites(d: Desk, steps: seq<Step>, userId: nat)
    ensures NewestOf(Play(d, steps).world, userId) == NewestAfter(NewestOf(d.world, userId), Since(d, Play(d, steps)), userId)
    decreases |steps|
  {
    if steps != [] {
      var mid, r := Play(d, steps[..|steps| - 1]), Play(d, steps);
      NewestFollowsWrites(d, steps[..|steps| - 1], userId);
      SinceOneMore(d, steps);
      NewestAfterConcat(NewestOf(d.world, userId), Since(d, mid), Since(mid, r), userId);
      StepNewest(mid, steps[|steps| - 1], userId);
    }
  }

  /** The write creates an application of the person, or sends one of theirs back to review. */
  predicate OpensFor(n: Newest, write: Write, userId: nat)
  {
    (write.Creates? && write.userId == userId) ||
    (write.SendsBack? && write.target == ToSubmitted && n.id == Some(write.id))
  }

  lemma {:induction false} OpenNeedsWrite(n: Newest, writes: seq<Write>, userId: nat)
    requires !n.open && NewestAfter(n, writes, userId).open
    ensures exists i :: 0 <= i < |writes| && OpensFor(NewestAfter(n, writes[..i], userId), writes[i], userId)
    decreases |writes|
  {
    var k := |writes| - 1;
    if NewestAfter(n, writes[..k], userId).open {
      OpenNeedsWrite(n, writes[..k], userId);
      var i :| 0 <= i < k && OpensFor(NewestAfter(n, writes[..k][..i], userId), writes[..k][i], userId);
      assert writes[..k][..i] == writes[..i] && writes[..k][i] == writes[i];
    } else {
      assert OpensFor(NewestAfter(n, writes[..k], userId), writes[k], userId);
    }
  }

  /**
   A submission that was accepted on what it read and then waited leaves the person two open
   applications exactly when the writes made since left their newest one open; some of those then
   created an application of theirs, or sent their newest back to review.
   */
  lemma LateSubmission(d: Desk, userId: nat, answers: Text, now: int, between: seq<Step>)
    requires Stops(d.world, Submit(userId, answers, true, now)) == None && OneOpen(d.world)
    ensures !NewestOpen(d.world, userId)
    ensures var a := Submit(userId, answers, true, now); var r := Play(Taken(d, Start(a)), between);
      var writes := Since(d, r); var n := NewestOf(d.world, userId);
      [Creates(userId, answers)] in r.tasks &&
      (StepOpensSecond(r, Go([Creates(userId, answers)])) <==> NewestAfter(n, writes, userId).open) &&
      (NewestAfter(n, writes, userId).open ==>
        exists i :: 0 <= i < |writes| && OpensFor(NewestAfter(n, writes[..i], userId), writes[i], userId))
  {
    var read := Taken(d, Start(Submit(userId, answers, true, now)));
    var r := Play(read, between);
    PlayOnlyAdds(read, between);
    NewestFollowsWrites(read, between, userId);
    assert Since(read, r) == Since(d, r);
    if NewestAfter(NewestOf(d.world, userId), Since(d, r), userId).open {
      OpenNeedsWrite(NewestOf(d.world, userId), Since(d, r), userId);
    }
  }
}
