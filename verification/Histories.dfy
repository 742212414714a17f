/** Runs in which the life cycle of applications and appeals departs from what the code documents. */
module Histories {
  import opened Wrappers
  import opened Text
  import opened Status
  import opened Gate
  import opened Lifecycle
  import opened Appeals
  import opened Submissions

  /** A project that asks for applications and nothing else, with one user, account 7 with login "a". */
  function OneApplicant(cooldownDays: Option<nat>): World
  {
    World(Settings(true, [], false, true, false, false, true, cooldownDays, 0), map[], [User(Some(7), Some([97]))], [])
  }

  /** The project after a run of steps. */
  ghost predicate Reached(cooldownDays: Option<nat>, steps: seq<Step>, d: Desk)
  {
    d == Play(Opened(OneApplicant(cooldownDays)), steps)
  }

  lemma More(cooldownDays: Option<nat>, steps: seq<Step>, d: Desk, step: Step) returns (more: seq<Step>, r: Desk)
    requires Reached(cooldownDays, steps, d)
    ensures Reached(cooldownDays, more, r) && r == Taken(d, step) && more == steps + [step] && d.tasks <= r.tasks
  {
    PlayOneMore(Opened(OneApplicant(cooldownDays)), steps, step);
    StepMakes(d, step);
    more, r := steps + [step], Taken(d, step);
  }

  lemma ReachedIsSound(cooldownDays: Option<nat>, steps: seq<Step>, d: Desk)
    requires Reached(cooldownDays, steps, d)
    ensures Sound(d)
  {
    OpenedIsSound(OneApplicant(cooldownDays));
    PlayIsSound(Opened(OneApplicant(cooldownDays)), steps);
  }

  /** A call with one write, nothing in between. */
  lemma MoreCall(cooldownDays: Option<nat>, steps: seq<Step>, d: Desk, a: Action, write: Write) returns (more: seq<Step>, r: Desk)
    requires Reached(cooldownDays, steps, d) && Stops(d.world, a) == None && WritesOf(d.world, a) == [write]
    requires After(d.world, write).Some?
    ensures Reached(cooldownDays, more, r) && Some(r.world) == After(d.world, write) && d.tasks <= r.tasks
  {
    more, r := More(cooldownDays, steps, d, Start(a));
    more, r := More(cooldownDays, more, r, Go([write]));
  }

  function DateOf(cooldownDays: Option<nat>): Option<int>
  {
    match cooldownDays case Some(days) => Some(days * 86_400_000) case None => None
  }

  /** Applied, and denied with leave to apply again. */
  lemma DeniedOnce(cooldownDays: Option<nat>) returns (steps: seq<Step>, d: Desk)
    ensures Reached(cooldownDays, steps, d)
    ensures var w := OneApplicant(cooldownDays);
      d.world == w.(applications := [NewApplication(0, []).(status := Denied, cooldownUntil := DateOf(cooldownDays))])
  {
    steps, d := [], Opened(OneApplicant(cooldownDays));
    steps, d := MoreCall(cooldownDays, steps, d, Submit(0, [], true, 0), Creates(0, []));
    assert d.world.applications == [NewApplication(0, [])];
    steps, d := MoreCall(cooldownDays, steps, d, Deny(0, None, true, 0), Denies(0, None, true, DateOf(cooldownDays)));
    assert d.world.applications == [NewApplication(0, []).(status := Denied, cooldownUntil := DateOf(cooldownDays))];
  }

  /** And then appealed. */
  lemma Appealed(cooldownDays: Option<nat>) returns (steps: seq<Step>, d: Desk)
    ensures Reached(cooldownDays, steps, d) && Sound(d)
    ensures d.world == OneApplicant(cooldownDays).(applications := d.world.applications)
    ensures d.world.applications ==
      [Application(0, None, Denied, [], None, true, DateOf(cooldownDays), Some(Appeal(AppealPending, [])))]
  {
    steps, d := DeniedOnce(cooldownDays);
    steps, d := MoreCall(cooldownDays, steps, d, FileAppeal(0, 0, 1, Some([])), FilesAppeal(0, []));
    ReachedIsSound(cooldownDays, steps, d);
  }

  // ---- the gate and the form ----

  const REPO := Repo(0, true, None, [], false)
  const AUTHOR := Author([97], 7, false, Outsider)

  lemma AppliesToAuthor(cooldownDays: Option<nat>, w: World)
    requires w == OneApplicant(cooldownDays).(applications := w.applications)
    ensures AppliesHere(w, REPO, AUTHOR, 0)
  {
    assert Lower([97]) == [97] && ParseBypass([]) == [];
  }

  /** The gate invites the author to apply and the form refuses. */
  lemma GateInvitesFormRefuses(cla: ClaStatus) returns (steps: seq<Step>, d: Desk)
    ensures Reached(None, steps, d) && AppliesHere(d.world, REPO, AUTHOR, 0) && AppealHoldsBack(d.world, 0, 0)
    ensures Invites(Decide(d.world, REPO, AUTHOR, 0, cla)) && SubmitRefusal(d.world, 0, true, 0) == Some(AppealUnderReview)
  {
    steps, d := Appealed(None);
    AppliesToAuthor(None, d.world);
    GateAgreesWithForm(d.world, REPO, AUTHOR, 0, 0, cla);
  }

  /** The gate names a date and the form answers that an appeal is pending. */
  lemma GateNamesDateFormAppeal(cla: ClaStatus) returns (steps: seq<Step>, d: Desk)
    ensures Reached(Some(1), steps, d) && AppliesHere(d.world, REPO, AUTHOR, 0) && CoolsUnderAppeal(d.world, 0, 0, 86_400_000)
    ensures RefusesUntil(Decide(d.world, REPO, AUTHOR, 0, cla), 86_400_000)
    ensures SubmitRefusal(d.world, 0, true, 0) == Some(AppealUnderReview)
  {
    steps, d := Appealed(Some(1));
    AppliesToAuthor(Some(1), d.world);
    GateAgreesOnCooldown(d.world, REPO, AUTHOR, 0, 0, cla, 86_400_000);
  }

  // ---- dates ----

  /** Re-opened and approved at once: approved with a cooldown date. */
  lemma ApprovedWithDate() returns (steps: seq<Step>, d: Desk)
    ensures Reached(Some(1), steps, d) && |d.world.applications| == 1
    ensures d.world.applications[0].status == Approved && d.world.applications[0].cooldownUntil == Some(86_400_000)
    ensures !CooldownsPlaced(d.world)
  {
    steps, d := DeniedOnce(Some(1));
    var reopens := Reopens(0, Some(86_400_000));
    steps, d := More(Some(1), steps, d, Start(Reopen(0, 0)));
    assert [reopens] in d.tasks;
    steps, d := MoreCall(Some(1), steps, d, Approve(0, 0, true, None), Approves(0, None));
    steps, d := More(Some(1), steps, d, Go([reopens]));
    assert !CooldownPlaced(d.world.applications[0]);
  }

  // ---- appeals ----

  /** A grant has read: its three writes are to be made. */
  lemma GrantOpened(other: Option<Action>) returns (steps: seq<Step>, d: Desk)
    requires other.Some? ==> other.value == Resolve(0, Reject, 0, false, None, 0)
    ensures Reached(None, steps, d) && Sound(d) && HasPendingAppeal(d.world, 0) && GrantWrites(0, None, []) in d.tasks
    ensures |d.world.applications| == 1 && d.world.applications[0].appeal == Some(Appeal(AppealPending, []))
    ensures d.world.settings == OneApplicant(None).settings && (other.Some? ==> [Closes(0, Reject)] in d.tasks)
  {
    steps, d := Appealed(None);
    steps, d := More(None, steps, d, Start(Resolve(0, Grant, 0, false, None, 0)));
    if other.Some? {
      steps, d := More(None, steps, d, Start(other.value));
    }
    ReachedIsSound(None, steps, d);
  }

  /** It stops after the approval: approved, the appeal still waiting, and granting it again is refused. */
  lemma GrantIsInterrupted() returns (steps: seq<Step>, d: Desk)
    ensures Reached(None, steps, d) && HasPendingAppeal(d.world, 0) && d.world.applications[0].status == Approved
    ensures Stops(d.world, Resolve(0, Grant, 0, true, None, 0)) == Some(NotDecided(NotDenied))
  {
    steps, d := GrantOpened(None);
    GoMakes(d, GrantWrites(0, None, []));
    steps, d := More(None, steps, d, Go(GrantWrites(0, None, [])));
  }

  /** Denied again first, it goes through. */
  lemma DeniedThenGranted() returns (steps: seq<Step>, d: Desk)
    ensures Reached(None, steps, d) && HasPendingAppeal(d.world, 0) && d.world.applications[0].status == Denied
    ensures Stops(d.world, Resolve(0, Grant, 0, true, None, 0)) == None
  {
    steps, d := GrantOpened(None);
    GoMakes(d, GrantWrites(0, None, []));
    steps, d := More(None, steps, d, Go(GrantWrites(0, None, [])));
    steps, d := MoreCall(None, steps, d, Deny(0, None, true, 0), Denies(0, None, true, None));
  }

  /** The writes of a grant left after the approval, and after the answers. */
  lemma GrantTasks()
    ensures GrantWrites(0, None, [])[1..] == [TakesAnswers(0, []), Closes(0, Grant)]
    ensures [TakesAnswers(0, []), Closes(0, Grant)][1..] == [Closes(0, Grant)]
  {
  }

  /** The last two writes of the grant, nothing in between. */
  lemma GrantEnds(steps: seq<Step>, d: Desk) returns (more: seq<Step>, r: Desk)
    requires Reached(None, steps, d) && [TakesAnswers(0, []), Closes(0, Grant)] in d.tasks && HasAppeal(d.world, 0)
    requires d.world.applications[0].appeal.value.answers == []
    ensures Reached(None, more, r) && d.tasks <= r.tasks && HasAppeal(r.world, 0)
    ensures r.world.applications[0].appeal == Some(Appeal(Granted, [])) && r.world.applications[0].status == d.world.applications[0].status
  {
    GrantTasks();
    ReachedIsSound(None, steps, d);
    GoMakes(d, [TakesAnswers(0, []), Closes(0, Grant)]);
    more, r := More(None, steps, d, Go([TakesAnswers(0, []), Closes(0, Grant)]));
    GoMakes(r, [Closes(0, Grant)]);
    more, r := More(None, more, r, Go([Closes(0, Grant)]));
  }

  /** Denied by another reviewer between the approval and the rest: denied, with the appeal granted. */
  lemma DeniedWithGrantedAppeal() returns (steps: seq<Step>, d: Desk)
    ensures Reached(None, steps, d) && HasAppeal(d.world, 0)
    ensures d.world.applications[0].status == Denied && d.world.applications[0].appeal == Some(Appeal(Granted, []))
  {
    steps, d := GrantOpened(None);
    GrantTasks();
    GoMakes(d, GrantWrites(0, None, []));
    steps, d := More(None, steps, d, Go(GrantWrites(0, None, [])));
    steps, d := MoreCall(None, steps, d, Deny(0, None, true, 0), Denies(0, None, true, None));
    steps, d := GrantEnds(steps, d);
  }

  /** One reviewer grants and another rejects at once: the granted appeal ends rejected, the application approved. */
  lemma GrantedThenRejected() returns (steps: seq<Step>, granted: Desk, d: Desk)
    ensures Reached(None, steps, granted) && d == Taken(granted, Go([Closes(0, Reject)])) && HasAppeal(granted.world, 0)
    ensures granted.world.applications[0].appeal == Some(Appeal(Granted, []))
    ensures HasAppeal(d.world, 0) && d.world.applications[0].appeal == Some(Appeal(AppealRejected, []))
    ensures d.world.applications[0].status == Approved && !AllContinue(granted.world, d.world)
  {
    steps, granted := GrantOpened(Some(Resolve(0, Reject, 0, false, None, 0)));
    GrantTasks();
    GoMakes(granted, GrantWrites(0, None, []));
    steps, granted := More(None, steps, granted, Go(GrantWrites(0, None, [])));
    steps, granted := GrantEnds(steps, granted);
    ReachedIsSound(None, steps, granted);
    GoMakes(granted, [Closes(0, Reject)]);
    d := Taken(granted, Go([Closes(0, Reject)]));
    assert !Continues(granted.world.applications[0], d.world.applications[0]);
  }

  // ---- two open applications ----

  /** Submitted twice at once: both calls find no application, and both create one. */
  lemma SubmittedTwice() returns (steps: seq<Step>, d: Desk)
    ensures steps == [Start(Submit(0, [], true, 0)), Start(Submit(0, [], true, 0)), Go([Creates(0, [])]), Go([Creates(0, [])])]
    ensures Reached(None, steps, d) && |d.world.applications| == 2 && IsOpen(d.world, 0) && IsOpen(d.world, 1) && !OneOpen(d.world)
  {
    var start, create := Start(Submit(0, [], true, 0)), Go([Creates(0, [])]);
    steps, d := [], Opened(OneApplicant(None));
    steps, d := More(None, steps, d, start);
    steps, d := More(None, steps, d, start);
    assert [Creates(0, [])] in d.tasks && d.world == OneApplicant(None);
    steps, d := More(None, steps, d, create);
    assert d.world.applications == [NewApplication(0, [])];
    steps, d := More(None, steps, d, create);
    assert d.world.applications == [NewApplication(0, []), NewApplication(0, [])];
    assert !IsLatest(d.world, 0);
  }

  /** A denied application is replaced by a new one and then sent back to review. */
  lemma SentBackAfterReplaced() returns (steps: seq<Step>, d: Desk)
    ensures Reached(None, steps, d) && |d.world.applications| == 2 && IsOpen(d.world, 0) && IsOpen(d.world, 1) && !OneOpen(d.world)
  {
    steps, d := DeniedOnce(None);
    steps, d := MoreCall(None, steps, d, Submit(0, [], true, 0), Creates(0, []));
    assert |d.world.applications| == 2 && IsOpen(d.world, 1);
    steps, d := MoreCall(None, steps, d, Revoke(0, ToSubmitted, None, 0), SendsBack(0, ToSubmitted, None, None));
    assert Latest(d.world.applications, 0, None) == Some(1);
    assert !IsLatest(d.world, 0);
  }
}
