/**
 The decision the gate takes for a pull request, and what the application form accepts, with which
 it has to agree. Rows are looked up newest first; a row's place in its table stands for its
 creation time.
 */
module Gate {
  import opened Wrappers
  import opened Text
  import Json
  import JsonParse
  import Glob
  import opened Status

  datatype ManualDecision = ManualDecision(denied: bool, ghId: Option<int>, reason: Option<Text>)

  datatype AppStatus = Submitted | Approved | Denied

  datatype AppealStatus = AppealPending | Granted | ResubmitAllowed | AppealRejected

  datatype Appeal = Appeal(status: AppealStatus, answers: Text)

  datatype Application = Application(
    userId: nat, repoId: Option<nat>, status: AppStatus, answers: Text, reason: Option<Text>,
    allowResubmit: bool, cooldownUntil: Option<int>, appeal: Option<Appeal>)

  datatype User = User(ghId: Option<int>, ghLogin: Option<Text>)

  datatype Settings = Settings(
    checkerEnabled: bool, bypassHandles: Text, bypassCollabs: bool, applicationRequired: bool,
    claEnabled: bool, claRequired: bool, allowAppeals: bool, cooldownDays: Option<nat>, requireApprovalCount: nat)

  datatype Repo = Repo(
    id: nat, active: bool, installationId: Option<nat>, fullName: Text, requireOwnApproval: bool)

  datatype World = World(
    settings: Settings, manual: map<Text, ManualDecision>, users: seq<User>, applications: seq<Application>)

  datatype PendingReason = NoApplication | AwaitingReview | CooldownElapsed

  datatype Decision =
    | Ignored
    | Allowed(checkerDisabled: bool)
    | BypassedBot
    | BypassedCollaborator
    | PendingDecision(why: PendingReason)
    | CheckRequired(stale: bool)
    | Refused(reason: Option<Text>, cooldownUntil: Option<int>)

  /** What GitHub says of the author on the repository. */
  datatype Collaboration = Collaborator | Outsider | LookupFailed

  datatype Author = Author(ghLogin: Text, ghId: int, hinted: bool, collaboration: Collaboration)

  // ---- the decision ----

  function StringsOf(items: seq<Json.Json>): seq<Text>
  {
    if items == [] then []
    else (if items[0].Str? then [items[0].text] else []) + StringsOf(items[1..])
  }

  /** The bypass list; anything that is not a JSON array counts as none. */
  function ParseBypass(json: Text): seq<Text>
  {
    match JsonParse.Parse(json)
    case Some(Arr(items)) => StringsOf(items)
    case _ => []
  }

  function FirstSlash(t: Text): (i: nat)
    ensures i <= |t|
  {
    if t == [] || t[0] == 47 then 0 else 1 + FirstSlash(t[1..])
  }

  /** The full name splits into an owner and a name, both non-empty. */
  predicate HasOwnerAndName(fullName: Text)
  {
    var i := FirstSlash(fullName);
    0 < i && i + 1 < |fullName| && fullName[i + 1] != 47
  }

  function ManualFor(w: World, ghLogin: Text): Option<ManualDecision>
  {
    if Lower(ghLogin) in w.manual then Some(w.manual[Lower(ghLogin)]) else None
  }

  predicate IsBypassed(w: World, ghLogin: Text)
  {
    Glob.MatchesAnyPattern(ghLogin, ParseBypass(w.settings.bypassHandles))
  }

  /** The collaborator lookup runs where the app is installed, else the caller's hint counts. */
  predicate IsAutoBypassed(w: World, repo: Repo, a: Author)
  {
    w.settings.bypassCollabs &&
    if repo.installationId.Some? then HasOwnerAndName(repo.fullName) && a.collaboration == Collaborator else a.hinted
  }

  function UserOf(users: seq<User>, ghId: int): Option<nat>
  {
    if users == [] then None
    else if users[|users| - 1].ghId == Some(ghId) then Some(|users| - 1)
    else UserOf(users[..|users| - 1], ghId)
  }

  /** The newest application of a user that counts for `repo` (any, when `repo` is none). */
  function Latest(apps: seq<Application>, userId: nat, repo: Option<nat>): (r: Option<nat>)
    ensures r.Some? ==> r.value < |apps| && apps[r.value].userId == userId
  {
    if apps == [] then None
    else
      var app := apps[|apps| - 1];
      if app.userId == userId && (repo.None? || app.repoId.None? || app.repoId == repo) then Some(|apps| - 1)
      else Latest(apps[..|apps| - 1], userId, repo)
  }

  predicate Cooling(app: Application, now: int)
  {
    app.cooldownUntil.Some? && app.cooldownUntil.value > now
  }

  datatype Base = Final(decision: Decision) | Allowing(decision: Decision)

  function MissingBase(w: World, why: PendingReason): Base
  {
    if w.settings.applicationRequired then Final(PendingDecision(why)) else Allowing(Allowed(false))
  }

  function ApplicationBase(w: World, app: Application, now: int): Base
  {
    match app.status
    case Approved => Allowing(Allowed(false))
    case Submitted => MissingBase(w, AwaitingReview)
    case Denied =>
      if !app.allowResubmit then Final(Refused(app.reason, None))
      else if Cooling(app, now) then Final(Refused(app.reason, app.cooldownUntil))
      else Final(PendingDecision(CooldownElapsed))
  }

  function LookupBase(w: World, repo: Repo, ghId: int, now: int): Base
  {
    match UserOf(w.users, ghId)
    case None => MissingBase(w, NoApplication)
    case Some(userId) =>
      match Latest(w.applications, userId, if repo.requireOwnApproval then Some(repo.id) else None)
      case None => MissingBase(w, NoApplication)
      case Some(i) => ApplicationBase(w, w.applications[i], now)
  }

  function BaseOf(w: World, repo: Repo, a: Author, now: int): Base
  {
    var manual := ManualFor(w, a.ghLogin);
    if !repo.active then Final(Ignored)
    else if !w.settings.checkerEnabled then Final(Allowed(true))
    else if manual.Some? && manual.value.denied then Final(Refused(manual.value.reason, None))
    else if IsBypassed(w, a.ghLogin) then Final(BypassedBot)
    else if manual.Some? then Allowing(Allowed(false))
    else if IsAutoBypassed(w, repo, a) then Allowing(BypassedCollaborator)
    else LookupBase(w, repo, a.ghId, now)
  }

  function Decide(w: World, repo: Repo, a: Author, now: int, cla: ClaStatus): Decision
  {
    match BaseOf(w, repo, a, now)
    case Final(d) => d
    case Allowing(d) =>
      if w.settings.claEnabled && w.settings.claRequired && !cla.satisfied then CheckRequired(cla.needsResign) else d
  }

  /** The agreement is asked for exactly of authors who are otherwise let in, who are not bots, and who are not covered. */
  lemma ClaGateIsExact(w: World, repo: Repo, a: Author, now: int, cla: ClaStatus)
    ensures Decide(w, repo, a, now, cla).CheckRequired? <==>
      BaseOf(w, repo, a, now).Allowing? && w.settings.claEnabled && w.settings.claRequired && !cla.satisfied
    ensures Decide(w, repo, a, now, cla).CheckRequired? ==>
      Decide(w, repo, a, now, cla).stale == cla.needsResign && !IsBypassed(w, a.ghLogin) &&
      (ManualFor(w, a.ghLogin).Some? ==> !ManualFor(w, a.ghLogin).value.denied)
  {
    match BaseOf(w, repo, a, now)
    case Final(d) => FinalIsNotCheck(w, repo, a, now);
    case Allowing(d) =>
  }

  lemma FinalIsNotCheck(w: World, repo: Repo, a: Author, now: int)
    requires BaseOf(w, repo, a, now).Final?
    ensures !BaseOf(w, repo, a, now).decision.CheckRequired?
  {
  }

  // ---- applications and appeals ----

  datatype SubmitError =
    | InvalidAnswers | NotEligible | AlreadyPending | AlreadyApproved | AppealUnderReview | ResubmitDisabled
    | InCooldown(until: int)

  predicate IsManuallyBlocked(w: World, userId: nat)
  {
    userId < |w.users| && w.users[userId].ghLogin.Some? && w.users[userId].ghLogin.value != [] &&
    var manual := ManualFor(w, w.users[userId].ghLogin.value);
    manual.Some? && manual.value.denied
  }

  function SubmitBlock(app: Application, now: int): Option<SubmitError>
  {
    match app.status
    case Submitted => Some(AlreadyPending)
    case Approved => Some(AlreadyApproved)
    case Denied =>
      if app.appeal.Some? && app.appeal.value.status == AppealPending then Some(AppealUnderReview)
      else if !app.allowResubmit then Some(ResubmitDisabled)
      else if Cooling(app, now) then Some(InCooldown(app.cooldownUntil.value))
      else None
  }

  /** Why a submission is refused, `None` when it is accepted. */
  function SubmitRefusal(w: World, userId: nat, answersValid: bool, now: int): Option<SubmitError>
  {
    if !answersValid then Some(InvalidAnswers)
    else if IsManuallyBlocked(w, userId) then Some(NotEligible)
    else
      match Latest(w.applications, userId, None)
      case None => None
      case Some(i) => SubmitBlock(w.applications[i], now)
  }

  function NewApplication(userId: nat, answers: Text): Application
  {
    Application(userId, None, Submitted, answers, None, true, None, None)
  }

  /** Whether the gate tells the author to apply. */
  predicate Invites(d: Decision)
  {
    d == PendingDecision(NoApplication) || d == PendingDecision(CooldownElapsed)
  }

  /** An appeal is waiting on a denial the applicant could otherwise answer with a new application. */
  predicate AppealHoldsBack(w: World, userId: nat, now: int)
  {
    var last := Latest(w.applications, userId, None);
    last.Some? && var app := w.applications[last.value];
    app.status == Denied && app.appeal.Some? && app.appeal.value.status == AppealPending && app.allowResubmit && !Cooling(app, now)
  }

  /** The setting the gate and the form are meant to agree in. */
  predicate AppliesHere(w: World, repo: Repo, a: Author, userId: nat)
  {
    repo.active && !repo.requireOwnApproval && w.settings.checkerEnabled && w.settings.applicationRequired &&
    !IsBypassed(w, a.ghLogin) && !IsAutoBypassed(w, repo, a) && ManualFor(w, a.ghLogin).None? &&
    UserOf(w.users, a.ghId) == Some(userId) && !IsManuallyBlocked(w, userId)
  }

  /**
   The gate invites an author to apply exactly when the form takes valid answers, unless an
   appeal is holding a new application back; then the gate invites and the form refuses.
   */
  lemma GateAgreesWithForm(w: World, repo: Repo, a: Author, userId: nat, now: int, cla: ClaStatus)
    requires AppliesHere(w, repo, a, userId)
    ensures var d := Decide(w, repo, a, now, cla); var refusal := SubmitRefusal(w, userId, true, now);
      ((Invites(d) <==> refusal == None) <==> !AppealHoldsBack(w, userId, now)) &&
      (AppealHoldsBack(w, userId, now) ==> Invites(d) && refusal == Some(AppealUnderReview))
  {
  }

  predicate RefusesUntil(d: Decision, until: int) { d.Refused? && d.cooldownUntil == Some(until) }

  /** The author's latest application cools down until then, and an appeal is waiting on it. */
  predicate CoolsUnderAppeal(w: World, userId: nat, now: int, until: int)
  {
    var last := Latest(w.applications, userId, None);
    last.Some? && var app := w.applications[last.value];
    app.status == Denied && app.allowResubmit && Cooling(app, now) && app.cooldownUntil == Some(until) &&
    app.appeal.Some? && app.appeal.value.status == AppealPending
  }

  /**
   A refusal for cooldown names the same date on both sides, unless an appeal is waiting on the
   author's latest application; then the gate names the date and the form answers with the appeal.
   */
  lemma GateAgreesOnCooldown(w: World, repo: Repo, a: Author, userId: nat, now: int, cla: ClaStatus, until: int)
    requires AppliesHere(w, repo, a, userId)
    ensures var d := Decide(w, repo, a, now, cla); var refusal := SubmitRefusal(w, userId, true, now);
      ((RefusesUntil(d, until) <==> refusal == Some(InCooldown(until))) <==> !CoolsUnderAppeal(w, userId, now, until)) &&
      (CoolsUnderAppeal(w, userId, now, until) ==> RefusesUntil(d, until) && refusal == Some(AppealUnderReview))
  {
  }
}
