# CLA records: a verified model

This project models how a contribution gate keeps contributor licence agreement (CLA) records,
and proves properties of them. It covers five parts that share one state.

1. The records and their ledger. `Cla` has the tables of one project (document versions,
   signatures, corporate agreements, roster rows, waivers), the ledger's events and the change each
   transaction makes. `Runs` lets transactions overlap: each reads, then finishes on whatever was
   committed since. `Mutations` runs the transactions against stored rows and a stored chain.
   `Text`, `Json`, `JsonParse` and `Canonical` are the canonical JSON text (strings escaped as in
   section 7 of RFC 8259, keys sorted as in section 3.2.3 of RFC 8785), `Chain` the hash chain,
   `Ledger` the events as payloads, `Replay` the tables rebuilt from events, `Status` coverage,
   `Overlap` what overlapping transactions do to one another, `Reports` whom a report drawn up early
   misses, `Rosters` how long a dispute keeps an account off, and `Audit` what a chain alone tells
   about coverage.
2. The move to GPlatform Legal. `Move` has the steps of local writers, the mover and Legal in any
   order, `MoveProgress` shows the move can always finish, `MoveRows` and `MoveDelta` say exactly
   when the rows arrive, `Batching` splits requests, and `Migration` is the mover's own run.
3. The follower of a moved project's chain: `Follow`.
4. The gate. `Gate` decides on pull requests and says what the application form accepts,
   `Lifecycle` has the calls on applications and appeals, overlapping, with `Appeals` and
   `Submissions` on what they keep and `Histories` with runs where they do not, `Applications` runs
   decisions and calls on stored rows, `Glob` compiles bypass patterns, `Regate` says whom a change of
   coverage affects, `PullRequests` checks stored rows again, and `Rechecks` does so row by row with
   everything else going on.
5. Loops with arithmetic or a race: `Paging`, `LastKnown`, `Credentials`.

## How to read it

- A row's id is its place in its table; rows are never deleted. Ids in payloads are numbers.
- The hash is a parameter; where tampering matters it is injective and its output one line.
- A run is any interleaving of transactions, each in two or more steps: what it reads first decides
  what it will write (`Runs.Plan`), and the rest is one step on the tables as they are then
  (`Runs.Finish`). The rest begins where the transaction first inserts a row or appends an entry.
  Appending takes the project's row for update (`src/lib/cla/integrity.ts:116-118`), and each inserted
  row refers to the project by a foreign key (`prisma/migrations/0_init/migration.sql:691-721`),
  whose check shares that row and so keeps others from taking it for update until the commit
  (section 13.3.2 of the PostgreSQL documentation); two that share it and both go on deadlock, and
  the one that fails is no step. No isolation level is set, so each statement reads what is committed.
- A call of `Mutations.ClaProject` is a transaction nothing overlaps, and such a transaction is a run
  of the steps (`Runs.StepIsRun`). Foreign calls (GitHub, Legal, the vault) are parameters that say
  whether they succeed and what they answer; clocks are parameters.
- A call on an application or appeal holds no lock and no database transaction spans its writes: it
  reads, which decides what it will write (`Lifecycle.WritesOf`), then makes one write at a time by
  row id (`Lifecycle.After`), with other calls' reads and writes anywhere in between. It may stop for
  good before any write. `Lifecycle.Play` is any such run.
- A pass over pull requests lists, decides and stores each row at three moments (`Rechecks.Duty`), with
  commits and other passes in between; a call may fail, and a process may stop. `PullRequests.OnClaCoverageRevoked`
  and `OnClaCoverageChanged` are the loops with nothing in between
  (`Rechecks.RowAtOnce`).
- The first reads of one transaction see one state, except that a roster's entries are looked up one
  by one; so do the reads of a call on an application, but for the second look at the status before
  an appeal's author may apply again (`ChecksDenied`).
- A transaction method works on its own copy of the rows, as the code works inside a database
  transaction, and commits rows and ledger entries together.
- `State.startedPending`, `Mover.snap`, `Mover.begun` and `Desk.done` are history for the statements; no step depends on them.

## Where the code and its documentation differ

The model follows the code.

- `src/lib/cla/status.ts:50-55` promises coverage if any of three paths covers. An account whose
  individual signatures are all out of date is answered no before the corporate path is looked at
  (`StatusDepartsFromRule`, `StaleSignatureHidesCompany`, `RevokingCanRestore`).
- `src/lib/cla/mutations.ts:62-66` promises the accounts whose signature became stale. For
  corporate agreements it leaves out rows without an account id and companies whose signatory's
  signature was revoked, though both are covered (`CclaReportIsExact`, `CorporatePublishMisses`,
  `CorporateResignMisses`, `SomeoneIsMissed`). A re-flag reads the signers before it holds the row,
  and misses who signs or is listed in between (`EarlyReflagMisses`, `EarlyReflagMissesSomeone`,
  `EarlyCorporateReflagMisses`, `EarlyCorporateReflagMissesSomeone`).
- `src/lib/cla/mutations.ts:361-362` promises a signature against the current version. One that read
  it before a publish or re-flag marks it is recorded and covers nobody (`LateSigningCovers`,
  `LateSignatureIsStale`), and can take coverage away (`LateSigningUncovers`, `LateSignatureUncovers`).
- `src/lib/cla/mutations.ts:620-621` says an approval throws unless the company is pending. Approved
  and rejected at once, both are recorded and the later decision stands (`LateDecision`, `RejectedIsApproved`).
- `src/lib/cla/move-to-legal.ts:15-19` says whatever was written meanwhile is sent. That holds of
  the chain (`MoveIsSound`) and, of the rows, exactly under the conditions of `RowsAtAgreement` and `RowsDespiteWrites`.
- `ccla.signed` does not record whether the company started waiting, so the ledger alone rebuilds
  the tables only under the condition of `FixedFlagReplay`.
- `src/lib/cla/follow.ts:75` says oldest first. That holds exactly if the chain stood still while
  the pages were read; else an entry comes twice (`OrderNeedsStillness`, `EntryComesTwice`). None is missed (`EntriesPast`).
- `src/lib/cla/mutations.ts:953-956` says a disputed row blocks re-adding until the contributor
  consents. Revoking the row lifts the block (`SkippedWhileDisputed`, `RevokingLiftsDispute`).
- `src/app/dashboard/projects/[id]/cla/actions.ts:38-42` calls the two passes safe together, as they
  act on rows in different states. A verdict is stored by row id whatever happened since: a row
  decided to be released before a text is marked, and released after the passes of that marking
  looked at it, passes for good though its author is not covered (`RowsStayRight`, `LateVerdict`,
  `PassedThoughMarked`).
- The gate tells a denied author to apply again, or when they may, while the form answers that an
  appeal is pending (`GateAgreesWithForm`, `GateAgreesOnCooldown`, `GateInvitesFormRefuses`,
  `GateNamesDateFormAppeal`).
- The form allows one open application (`src/lib/applications/lifecycle.ts:120-123`). Two submitted
  at once both find none and both are created (`src/lib/applications/lifecycle.ts:94-98` and 141-154);
  and one sent back to review after a newer one replaced it is a second (`RunKeepsOneOpen`,
  `LateSubmission`, `SubmittedTwice`, `SentBackAfterReplaced`).
- Only a denied application can be re-opened (`src/lib/applications/decide.ts:281-285`). Approved
  between that look and the write, it is approved with a cooldown date (`CooldownsStayPlaced`,
  `LateReopening`, `ApprovedWithDate`).
- An appeal is resolved once (`src/lib/applications/decide.ts:468-470`). Granted and rejected at
  once, the granted appeal ends rejected (`HistoryContinues`, `LateResolution`, `GrantedThenRejected`).
- An appeal grant is three writes. Denied by another reviewer in between, the application stays
  denied with the appeal granted (`GrantLeaves`, `DeniedWithGrantedAppeal`). Interrupted after the
  first, it can be repeated only once the application was denied again (`InterruptedGrantSticks`,
  `GrantIsInterrupted`, `DeniedThenGranted`).

## Model

| member | source | states |
|---|---|---|
| `JsonParse.ParseReadsBack` | src/lib/cla/integrity.ts:167-169 | parsing the text of any JSON value, at any depth, gives the value back |
| `JsonParse.ParsedIsWellFormed` | src/lib/cla/integrity.ts:245-248 | whatever is read back has no key twice, so it can be hashed again |
| `Canonical.CanonicalJsonPrintsCanon` | src/lib/cla/integrity.ts:34-53 | the canonical text is the plain text of the value with keys sorted by code unit and undefined fields dropped, at every depth |
| `Canonical.LookupInCanon` | src/lib/cla/integrity.ts:39-49 | sorting keeps, at every key, the value that was there, and leaves out exactly the undefined ones |
| `Canonical.CanonicalJsonIsExact` | src/lib/cla/integrity.ts:28-53 | two values have the same canonical text if and only if they are equal up to key order and undefined fields: independent of insertion order, and injective |
| `Canonical.CanonicalJsonParses` | src/lib/cla/integrity.ts:34-53 | the canonical text can be parsed back to the normalised value |
| `Canonical.StoredValueKeepsItsText` | src/lib/cla/integrity.ts:167-169 | storing a payload as text and reading it again leaves its canonical text, and so its hash, unchanged |
| `Canonical.CanonicalJsonIsOneLine` | src/lib/cla/integrity.ts:34-53 | no canonical text holds a raw newline |
| `Chain.VerifyChain` | src/lib/cla/integrity.ts:202-268 | accepts exactly the well-formed chains; of any other names the first entry that breaks a rule and which rule |
| `Chain.AppendKeepsAccepted` | src/lib/cla/integrity.ts:120-183 | appending, the lazy genesis included, takes an accepted chain to an accepted one that extends it and whose head is the new entry |
| `Chain.ExtendedIsAccepted` | src/lib/cla/integrity.ts:224-264 | an entry that extends an accepted chain by the rules leaves it accepted |
| `Chain.MaterialIsExact` | src/lib/cla/integrity.ts:67-74 | the hashed text determines number, kind, previous hash and payload, even for kinds that contain newlines |
| `Chain.HeadPinsChain` | src/lib/cla/integrity.ts:60-75 | tamper evidence: two accepted chains of a project with the same head have the same length and agree in every number, kind, previous hash and payload |
| `Cla.PublishKeepsInv` | src/lib/cla/mutations.ts:96-174 | publishing keeps versions numbered 1, 2, ... per kind, and the new version is current and not marked |
| `Runs.FlagsKeepInv` | src/lib/cla/mutations.ts:307-334 | changing re-sign flags as read earlier never marks a version that is current by then, and keeps the numbering |
| `Runs.FinishKeepsInv` | src/lib/cla/mutations.ts:67-1186 | whatever was committed since it read, a transaction that commits keeps numbering, the current versions and every reference between rows |
| `Runs.ChangeKeepsInv` | src/lib/cla/mutations.ts:67-1186 | likewise for a transaction nothing overlaps |
| `Runs.RunKeepsInv` | src/lib/cla/mutations.ts:96-173 | over every run of overlapping transactions versions of a kind are numbered 1..n, the current one is n and is never marked for re-signing, and what any open transaction read can still be acted on |
| `Runs.LatePublish` | src/lib/cla/mutations.ts:96-119 | two publishes at once: the one that comes second fails on the unique number, else it is the publish it would be now |
| `Runs.ChangeAtOnce` | src/lib/cla/mutations.ts:67-1186 | read and finished with nothing in between, each transaction makes the change its definition as a whole gives, or fails as it does |
| `Runs.StepIsRun` | src/lib/cla/mutations.ts:67-1186 | a transaction nothing overlaps is a run of the steps |
| `Overlap.RunKeepsRows` | src/lib/cla/mutations.ts:902-1180 | over every run no row is lost, a row keeps what it is about, a revoked signature or waiver stays revoked, a member off the list stays off it, a decided company never waits again |
| `Overlap.StatusFollowsDecisions` | src/lib/cla/mutations.ts:634-794 | over every run a company's status changes only by a recorded decision, and it waits exactly until there is one |
| `Overlap.LateDecision` | src/lib/cla/mutations.ts:646-655 | an approval or rejection commits whatever became of the company; it finds it no longer waiting if and only if another decision was recorded since it read |
| `Overlap.StepKeepsEnded` | src/lib/cla/mutations.ts:646-794 | nothing overlapping, a rejected or revoked company keeps its status |
| `Overlap.RejectedIsApproved` | src/lib/cla/mutations.ts:646-718 | a run that records a rejection and then an approval of the same company, which ends in effect |
| `Mutations.FindStale` | src/lib/cla/mutations.ts:121-146 | the versions a publish marks: the valid older ones of its kind that were asked for, never the new one |
| `Mutations.PublishTx` | src/lib/cla/mutations.ts:96-189 | one new version with the next number, the stale versions marked, and the accounts that signed those |
| `Mutations.CollectChanges` | src/lib/cla/mutations.ts:307-327 | the real flag changes among those asked for, in order, or a refusal when one would mark the current version |
| `Mutations.SetResignTx` | src/lib/cla/mutations.ts:286-366 | unknown versions, mixed kinds and the current version are refused; otherwise every flag is as asked, recorded in one event |
| `Mutations.AddRosterTx` | src/lib/cla/mutations.ts:838-890 | entries in turn; the skipped names are exactly those the roster found disputes, by account or login |
| `Mutations.AddEach` | src/lib/cla/mutations.ts:841-887 | each entry is added or skipped, each added one has its event, and the names skipped are those disputed |
| `Mutations.ClaProject.AppendClaEvent` | src/lib/cla/integrity.ts:99-184 | refused with nothing written once the project is in Legal; otherwise the stored chain is the chain with the entry appended, the genesis entry written first where there was none |
| `Mutations.ClaProject.Record` | src/lib/cla/integrity.ts:99-184 | the stored chain stays the chain of what was recorded |
| `Mutations.ClaProject.Commit` | src/lib/cla/mutations.ts:90-212 | what a transaction recorded and its rows become the project's together, or nothing does |
| `Mutations.ClaProject.PublishClaVersion` | src/lib/cla/mutations.ts:67-214 | the stored rows and chain take exactly the publish step, or are untouched and the error says why; the affected accounts are returned |
| `Mutations.ClaProject.SetVersionResign` | src/lib/cla/mutations.ts:274-368 | likewise for re-sign flags; reported are the signers of versions that changed in either direction |
| `Mutations.ClaProject.RecordIclaSignature` | src/lib/cla/mutations.ts:370-468 | likewise for an individual signature |
| `Mutations.ClaProject.RecordCclaSignature` | src/lib/cla/mutations.ts:476-615 | likewise for a corporate signature |
| `Mutations.ClaProject.ApproveCorporateCla` | src/lib/cla/mutations.ts:625-680 | likewise for an approval; returns the listed accounts |
| `Mutations.ClaProject.RejectCorporateCla` | src/lib/cla/mutations.ts:688-745 | likewise for a rejection |
| `Mutations.ClaProject.RevokeCorporateCla` | src/lib/cla/mutations.ts:755-803 | likewise for a revocation; returns the listed accounts |
| `Mutations.ClaProject.AddRosterMembers` | src/lib/cla/mutations.ts:812-891 | likewise for roster entries, all of them or none |
| `Mutations.ClaProject.RevokeRosterMember` | src/lib/cla/mutations.ts:898-950 | likewise for a revoked roster row |
| `Mutations.ClaProject.DisputeRosterMembership` | src/lib/cla/mutations.ts:958-1015 | likewise for a disputed roster row |
| `Mutations.ClaProject.RevokeSignatureOf` | src/lib/cla/mutations.ts:1022-1074 | likewise for a revoked signature |
| `Mutations.ClaProject.GrantWaiverTo` | src/lib/cla/mutations.ts:1080-1130 | likewise for a waiver |
| `Mutations.ClaProject.RevokeWaiverOf` | src/lib/cla/mutations.ts:1136-1186 | likewise for a revoked waiver |
| `Mutations.ClaProject.Verify` | src/lib/cla/integrity.ts:202-268 | a project's own chain always verifies, whatever transactions ran |
| `Replay.FinishReplays` | src/lib/cla/mutations.ts:67-1186 | what a transaction records, applied to the tables it commits to, gives the tables it leaves, whatever it had read before |
| `Replay.ReplayRebuilds` | src/lib/cla/mutations.ts:67-1186 | over every run of overlapping transactions the ledger, with the approval setting each company signed under, rebuilds the tables whole |
| `Replay.TwoReplays` | src/lib/cla/mutations.ts:511-513 | two settings lead to tables that differ at most in companies nobody decided on since |
| `Replay.FixedFlagReplay` | src/lib/cla/mutations.ts:511-513 | one fixed setting rebuilds the tables if and only if each company signed under that setting or was decided on since |
| `Replay.ReplayWithFixedSetting` | src/lib/cla/mutations.ts:511-513 | with the setting held fixed the ledger alone rebuilds the tables |
| `Replay.ChangedSettingMisleadsReplay` | src/lib/cla/mutations.ts:587-610 | a run in which the setting changed and the ledger rebuilds the wrong status |
| `Ledger.KindRoundTrip` | src/lib/cla/integrity.ts:12-26 | the thirteen event kinds have thirteen different names |
| `Ledger.EventRoundTrip` | src/lib/cla/mutations.ts:182-205 | every event can be read back from the payload its transaction writes |
| `Ledger.DecodeIgnoresKeyOrder` | src/lib/cla/integrity.ts:28-33 | payloads equal up to key order are the same event |
| `Ledger.AppendRecords` | src/lib/cla/integrity.ts:99-184 | appending an event's entry makes the chain record the log with the event |
| `Ledger.ChainOfLog` | src/lib/cla/integrity.ts:99-184 | the chain of any log is accepted and records it |
| `Ledger.HeadPinsHistory` | src/lib/cla/integrity.ts:202-268 | any accepted chain with the project's head decodes to the project's events |
| `Ledger.HeadPinsTables` | src/lib/cla/integrity.ts:202-268 | from bytes to tables: any accepted chain with the project's head replays to the tables the project has |
| `Ledger.HeadPinsTablesUpToStart` | src/lib/cla/integrity.ts:202-268 | whatever happened to the setting: such a chain replays to the project's tables under what each signing read, and under one setting for all to tables that differ exactly in the status of companies that read another and that nobody decided on since |
| `Audit.ChainDecidesCoverage` | src/lib/cla/status.ts:121-207 | such a chain gives every account the coverage the tables give |
| `Audit.ChainDecidesSettled` | src/lib/cla/status.ts:121-207 | whatever happened to the setting, it gives the coverage of every account each of whose listing companies signed under the setting or was decided on since |
| `Audit.LegalDecidesCoverage` | src/lib/cla/move-to-legal.ts:256-324 | after the move, the part of Legal's chain that came from here gives every account the coverage the local tables gave |
| `Status.StatusDepartsFromRule` | src/lib/cla/status.ts:128-206 | covered implies some path covers; the two agree unless only out-of-date individual signatures stand before a covering company, and exactly the former with no waiver reports re-signing |
| `Status.StaleSignatureHidesCompany` | src/lib/cla/status.ts:153-166 | a company member with one out-of-date signature: a path covers, the answer is no |
| `Overlap.LateSigningCovers` | src/lib/cla/mutations.ts:386-430 | signing covers if and only if the version it read was not left marked by the publishes and re-flags committed since, or a waiver or another signature covers the signer |
| `Overlap.FlagsFollowEvents` | src/lib/cla/mutations.ts:121-142 | over every run a version's flag is what the last publish or re-flag that names it left |
| `Overlap.LateSigningUncovers` | src/lib/cla/status.ts:146-166 | signing takes coverage away if and only if the version was left marked and only a company covered the signer |
| `Overlap.LateSignatureIsStale` | src/lib/cla/mutations.ts:386-430 | a run in which a publish comes between the read and the signature, which covers nobody |
| `Overlap.LateSignatureUncovers` | src/lib/cla/status.ts:146-166 | a run in which a member whom a company covers reads the text, a publish marks it, and the late signature leaves them uncovered |
| `Status.SigningIsOpen` | src/lib/cla/mutations.ts:393-405 | signing succeeds if and only if an individual agreement has been published |
| `Status.RevokingCanRestore` | src/lib/cla/status.ts:159-195 | revoking a signature covers an uncovered account exactly when it was the account's only individual signature, out of date, and a company covers |
| `Regate.PublishChangesFlags` | src/lib/cla/mutations.ts:121-158 | a publish changes nothing but the flags of the versions it marks and adds one nobody signed |
| `Regate.ResignChangesFlags` | src/lib/cla/mutations.ts:329-334 | setting flags changes nothing but the flags of the versions that differ |
| `Regate.IclaReportIsComplete` | src/lib/cla/mutations.ts:229-240 | after any change of individual-agreement flags every account whose answer differs is reported |
| `Regate.CclaReportIsExact` | src/lib/cla/mutations.ts:241-264 | whatever corporate flags change, in either direction: an answer changes unreported if and only if the account has no waiver and no individual signature, companies cover it on one side only, and no company resting on the versions, its signature active, lists it by id |
| `Regate.CclaReportIsComplete` | src/lib/cla/mutations.ts:241-264 | so the report is complete where every row the account relies on carries its id and the company's signature is active |
| `Regate.CorporatePublishMisses` | src/lib/cla/mutations.ts:121-158 | a corporate publish, marking all or chosen versions, misses an account if and only if it is unreportable in that sense and only companies whose text it marks covered it |
| `Regate.CorporateResignMisses` | src/lib/cla/mutations.ts:307-348 | setting corporate flags misses an account if and only if it is unreportable and companies cover it on one side only, told from the tables before |
| `Regate.SomeoneIsMissed` | src/lib/cla/mutations.ts:241-264 | a row with a login only, or a revoked signatory signature, each miss an account whose coverage is lost |
| `Reports.EarlyReportMisses` | src/lib/cla/mutations.ts:223-240 | of a report drawn up in an earlier state: an answer changes unreported if and only if the account has no waiver, having a signature that stands changes for it, and it had signed none of the versions by then; all its signatures on them are then newer than the report |
| `Reports.EarlyReflagMisses` | src/lib/cla/mutations.ts:307-348 | a re-flag reads the signers before it holds the row: an answer changes unreported if and only if, at the commit, the account has no waiver, has a signature that stands either before or after the changes but not both, and it had signed none of the versions when the signers were read |
| `Reports.EarlyCorporateReflagMisses` | src/lib/cla/mutations.ts:241-264 | likewise for a corporate re-flag and the members it read: unreported if and only if neither a waiver nor an individual signature, companies cover the account on one side only, and none that rested on the versions listed it by id, its signature active, when the members were read |
| `Reports.EarlyReflagMissesSomeone` | src/lib/cla/mutations.ts:336-348 | a run in which a signature comes in between: its signer's coverage is lost and not reported |
| `Reports.EarlyCorporateReflagMissesSomeone` | src/lib/cla/mutations.ts:336-348 | a run in which a member is listed in between: their coverage is lost and not reported |
| `Rosters.MemberFollowsEvents` | src/lib/cla/mutations.ts:898-1015 | over every run a roster row has the status the last event that names it left |
| `Rosters.SkippedWhileDisputed` | src/lib/cla/mutations.ts:841-857 | after every run an entry is skipped as disputed if and only if some row about its account or login was disputed and the last event that names the row since did not revoke it |
| `Rosters.RevokingLiftsDispute` | src/lib/cla/mutations.ts:898-950 | a run in which the company revokes the disputed row and then lists the member again |
| `PullRequests.OnClaCoverageRevoked` | src/lib/cla/post-sign.ts:247-338 | exactly the passing rows in scope of the reported authors whose fresh decision asks for the agreement are held, where GitHub answers; the count is the rows changed |
| `PullRequests.OnClaCoverageChanged` | src/lib/cla/post-sign.ts:80-182 | exactly the rows held for the agreement in scope of the author whose fresh decision lets through are passed; the count is the rows changed |
| `PullRequests.DriveCoverage` | src/app/dashboard/projects/[id]/cla/actions.ts:43-49 | both passes over the reported accounts, whatever their order |
| `PullRequests.SameAnswerSameGate` | src/lib/applications/decide-pr.ts:330-349 | accounts whose answer is the same get the same gate |
| `PullRequests.PassedRowIsSettled` | src/lib/cla/post-sign.ts:80-338 | whichever passes a caller drives and whatever accounts it names, a row agrees with the gate afterwards if and only if it did before or a pass that looks at its status names its author |
| `PullRequests.MissedIsChanged` | src/app/dashboard/projects/[id]/cla/corporate/actions.ts:95-240 | a row that agreed with the gate is missed by a commit's passes if and only if the agreement decides about it, the answer turns against it, and they do not look at its author in its status |
| `PullRequests.ReportIsComplete` | src/lib/cla/mutations.ts:223-264 | whatever was committed since they read: publishing an individual agreement, re-flagging one where nobody signed it since the signers were read, and signing a text that stands report everyone whose answer changes |
| `PullRequests.DrivenIsSettled` | src/lib/cla/post-sign.ts:201-338 | with a complete report, after the passes no passing row in scope would be held by a fresh decision and none stays held that one would let through |
| `PullRequests.PassesCloseNothing` | src/lib/cla/post-sign.ts:328-331 | the passes change only passing rows and rows held for the agreement, into one another |
| `Rechecks.RowsStayRight` | src/lib/cla/post-sign.ts:60-338 | over every run of overlapping transactions of every kind and of the passes their callers drive, with any call failing or process stopping: at every moment each row in scope agrees with what the gate would decide now or has a pass still to put it right, if and only if no commit turns an author's answer against a row that no pass has still to look at, no verdict is stored that the gate would no longer give, and no failing or lost duty leaves a row wrong; with no pass left all rows then agree |
| `Rechecks.LateVerdict` | src/lib/cla/post-sign.ts:107-330 | a verdict decided and stored later leaves its row in agreement with the gate if and only if the author's answer is again what it was, or the agreement does not decide about the row |
| `Rechecks.RowAtOnce` | src/lib/cla/post-sign.ts:60-338 | listed, decided and stored with nothing in between, a row is what the pass as a whole makes of it |
| `Rechecks.PassedThoughMarked` | src/lib/cla/post-sign.ts:107-182 | a run in which a text is marked between verdict and write: the row passes, its author is not covered, and no pass is left |
| `Rechecks.OnTimeBreaksNothing` | src/lib/cla/post-sign.ts:60-338 | a publish of an individual agreement, a re-flag of one where nobody signed it since the signers were read, and a signing of a text that stands turn no answer against a row unseen |
| `PullRequests.SignedRow` | src/lib/cla/post-sign.ts:80-182 | the pass after a signing misses a row if and only if it passes and the signing lost its author's coverage on a repository that asks for it |
| `PullRequests.SignerIsAsked` | src/lib/applications/decide-pr.ts:330-349 | right after signing the gate asks the signer, where they are otherwise let in, if and only if the version read was left marked since and nothing else covers them |
| `Move.StoredChain` | src/lib/cla/integrity.ts:99-184 | in every interleaving the stored chain is the chain of what was recorded |
| `Move.NothingRecorded` | src/lib/cla/integrity.ts:116-118 | once moved, and while the mover holds the row, no transaction changes a row or records anything |
| `Move.MoveIsSound` | src/lib/cla/move-to-legal.ts:256-324 | over every interleaving of overlapping writers, mover, failures and Legal: both chains are well formed, and a moved project's whole chain is in Legal's, entry for entry |
| `Move.SwitchNeedsAgreement` | src/lib/cla/move-to-legal.ts:312-320 | only the switch step after a successful compare moves the project |
| `Move.AgreementNeedsEqualHeads` | src/lib/cla/move-to-legal.ts:310-316 | the compare succeeds only if the two chains are equal entry for entry |
| `Move.MovedStaysPut` | src/lib/cla/integrity.ts:116-118 | after the switch rows, ledger and chain never change here |
| `Move.EveryWriteIsInLegal` | src/lib/cla/move-to-legal.ts:15-19 | each write either committed before the switch and can be read back from Legal's chain in order, or is refused and leaves no row and no entry, however early it had read |
| `MoveProgress.NothingIsRefused` | src/lib/cla/move-to-legal.ts:275-279 | as long as Legal writes nothing of its own, no entry the mover sends is refused |
| `MoveProgress.CompareSucceeds` | src/lib/cla/move-to-legal.ts:299-316 | once the later entries are sent the chains are equal and the compare finds so |
| `MoveProgress.RunIsClean` | src/lib/cla/move-to-legal.ts:256-316 | over every interleaving without Legal writing, what Legal holds is a part of the local chain |
| `MoveProgress.MoveCanFinish` | src/lib/cla/move-to-legal.ts:21-23 | from any state reached that way, however earlier runs failed, running the move again undisturbed switches the project |
| `MoveRows.RunKeepsStage` | src/lib/cla/move-to-legal.ts:248-298 | at every step, each row read in the first phase is in Legal as it was read or on its way, and each row read again as it is |
| `MoveRows.RowsArriveExactly` | src/lib/cla/move-to-legal.ts:286-298 | when the chains agree Legal has every row in its final status if and only if every row no later entry names is as it was read |
| `MoveDelta.FinishTracks` | src/lib/cla/mutations.ts:182-1180 | every transaction's events name each row it adds or changes, but for the flags a publish or a re-sign change sets |
| `MoveDelta.LaterMatches` | src/lib/cla/move-to-legal.ts:284-297 | the rows read again are those the later events name, and all versions after a re-sign change |
| `MoveDelta.RowsAtAgreement` | src/lib/cla/move-to-legal.ts:249-298 | with nothing recorded between the first read of rows and the read of the chain, Legal has every row in its final status if and only if a re-sign change follows or every version a later publish marks is named by a later entry |
| `MoveDelta.RowsArrive` | src/lib/cla/move-to-legal.ts:249-298 | so every row arrives when no later publish marks an older version |
| `MoveDelta.RowsDespiteWrites` | src/lib/cla/move-to-legal.ts:248-298 | in any run, with writes among the reads: Legal has every row in its final status if and only if each row touched by an event among the reads, or marked by a later publish, is brought by a later entry or is again as it was read |
| `MoveDelta.MarkedVersionIsMissed` | src/lib/cla/move-to-legal.ts:289-292 | a run in which a publish marks a version before the lock: the chains agree and Legal has the old flag |
| `MoveDelta.WriteAmongReadsIsMissed` | src/lib/cla/move-to-legal.ts:248-259 | a run in which a signature is recorded between the reads: the chains agree and Legal was never sent it |
| `Batching.BySize` | src/lib/cla/move-to-legal.ts:200-214 | non-empty batches whose concatenation is the list, each within count and bytes unless a single row, and none ended before it had to |
| `Batching.BatchingIsUnique` | src/lib/cla/move-to-legal.ts:200-214 | only one split has those properties, so the loop is determined by them |
| `Migration.MoverRun.Post` | src/lib/cla/move-to-legal.ts:216-225 | one request: its items arrive in turn as far as Legal takes them, others acting in between |
| `Migration.MoverRun.Send` | src/lib/cla/move-to-legal.ts:216-232 | the rows, each kind after what it rests on, then the chain entries, in batches |
| `Migration.MoverRun.FinishLocked` | src/lib/cla/move-to-legal.ts:276-324 | holding the row: ends switched only by way of the compare, everything later sent |
| `Migration.MoverRun.MoveClaToLegal` | src/lib/cla/move-to-legal.ts:234-328 | a run of the protocol's steps; moved if and only if it says so, every chain entry sent exactly once; a dry run or a failure leaves the project in use here; without failing calls and with Legal writing nothing of its own it moves, whatever others write meanwhile |
| `Follow.StepIsExact` | src/lib/cla/follow.ts:49-73 | an entry asks for nothing exactly when staff did not write it or it rejects a company; for one author only when a revoked signature or a waiver names the account |
| `Follow.NewerOfPage` | src/lib/cla/follow.ts:80-88 | the entries kept of a page are the end of its run |
| `Follow.EntriesPast` | src/lib/cla/follow.ts:76-92 | however the chain grows between the reads, every entry past the followed one is fetched up to the newest fetched, which is at least the newest at the start; there is a result if and only if the reads come to an end |
| `Follow.OrderNeedsStillness` | src/lib/cla/follow.ts:75-92 | the entries come oldest first and none twice, and are exactly those past the followed one, if and only if every page read saw the same length |
| `Follow.EntryComesTwice` | src/lib/cla/follow.ts:76-92 | a chain of 201 entries that grows by one between two reads: entry 1 comes twice |
| `Follow.AuthorsAreExact` | src/lib/cla/follow.ts:126-129 | exactly the accounts the entries name are asked about |
| `Follow.PassHandles` | src/lib/cla/follow.ts:112-139 | after a pass every staff entry up to the new note has been answered since it was on the chain |
| `Follow.Follower.FollowProject` | src/lib/cla/follow.ts:99-147 | over every run, with failures at any call: the note never goes back, every staff entry past the start and up to the note has had a re-gate asked for that covers it, and a pass without failure reaches the newest entry there was |
| `Gate.ClaGateIsExact` | src/lib/applications/decide-pr.ts:326-349 | the agreement is asked for exactly of authors otherwise let in, not on the bypass list, and not covered |
| `Gate.GateAgreesWithForm` | src/lib/applications/lifecycle.ts:93-154 | with applications required and no bypass, manual decision or per-repository approval, the gate invites exactly when the form accepts, if and only if no pending appeal holds the author back; then the gate invites and the form refuses |
| `Gate.GateAgreesOnCooldown` | src/lib/applications/lifecycle.ts:137-145 | both sides name the same cooldown date if and only if no appeal is pending on the author's latest application, cooling until then; with one, the gate names the date and the form answers with the appeal |
| `Histories.GateInvitesFormRefuses` | src/lib/applications/lifecycle.ts:93-154 | applied, denied with leave to apply again, appealed: the gate invites and the form refuses |
| `Histories.GateNamesDateFormAppeal` | src/lib/applications/lifecycle.ts:137-145 | likewise with a cooldown: the gate names the date and the form answers with the appeal |
| `Lifecycle.StatusFollowsWrites` | src/lib/applications/decide.ts:104-442 | over every run of overlapping calls an application has the status the last write that gives it one left |
| `Lifecycle.CooldownsStayPlaced` | src/lib/applications/decide.ts:155-165 | over every run of overlapping calls, at every moment, a cooldown date sits only on a denied application that may be resubmitted, if and only if no date was set on an application no longer denied |
| `Lifecycle.LateReopening` | src/lib/applications/decide.ts:271-295 | permission to apply again sets such a date if and only if there is a cooldown and the last write on the application's status since it was read was not a denial |
| `Histories.ApprovedWithDate` | src/lib/applications/decide.ts:271-295 | a run in which an approval comes in between: approved, with a cooldown date |
| `Appeals.HistoryContinues` | src/lib/applications/decide.ts:450-558 | over every run of overlapping calls each step keeps every application, every resolved appeal as resolved, and the answers but for an appeal's, if and only if none resolves a resolved appeal another way; then so does the whole run |
| `Appeals.AppealFollowsWrites` | src/lib/applications/decide.ts:450-520 | over every run an appeal keeps its answers and has the status the last write that closed it left |
| `Appeals.LateResolution` | src/lib/applications/decide.ts:450-520 | a resolution changes how an appeal was resolved if and only if the last write that closed it since it was read resolved it another way |
| `Histories.GrantedThenRejected` | src/lib/applications/decide.ts:450-520 | a run in which one reviewer grants and another rejects at once: the granted appeal ends rejected, the application approved |
| `Appeals.GrantLeaves` | src/lib/applications/decide.ts:476-517 | a grant's three writes with anything in between: the appeal ends granted, the application has its answers, and its status is what the others' writes since the approval left |
| `Histories.DeniedWithGrantedAppeal` | src/lib/applications/decide.ts:476-517 | a run that ends denied with the appeal granted |
| `Appeals.CallKeeps` | src/lib/applications/decide.ts:104-558 | a call nothing overlaps makes all its writes and keeps dates placed, resolved appeals and the answers |
| `Appeals.InterruptedGrantSticks` | src/lib/applications/decide.ts:476-517 | a grant stopped after the approval leaves the application approved and the appeal pending; over every later run granting again can succeed if and only if no write since closed the appeal and the last that gave the application a status denied it |
| `Histories.DeniedThenGranted` | src/lib/applications/decide.ts:476-517 | granted again at once it is refused; denied again first, it goes through |
| `Histories.GrantIsInterrupted` | src/lib/applications/decide.ts:476-517 | a history that ends in such a grant |
| `Appeals.InterruptedReopenRecovers` | src/lib/applications/decide.ts:495-505 | an interrupted permission to apply again can simply be repeated |
| `Submissions.OneOpenEach` | src/lib/applications/lifecycle.ts:112-154 | where only the newest application of a person is open nobody has two open ones |
| `Submissions.RunKeepsOneOpen` | src/lib/applications/lifecycle.ts:93-154 | over every run of overlapping calls, at every moment, only a person's newest application is open, if and only if none was created for somebody whose newest was open by then and none sent back to review that a newer one had replaced |
| `Submissions.NewestFollowsWrites` | src/lib/applications/lifecycle.ts:94-98 | over every run a person's newest application is the last created for them, open as the last write on its status left it |
| `Submissions.LateSubmission` | src/lib/applications/lifecycle.ts:94-154 | an accepted submission makes a second open application if and only if the writes since it looked left the person's newest open, for which one of them created an application of theirs or sent their newest back to review |
| `Histories.SubmittedTwice` | src/lib/applications/lifecycle.ts:94-154 | a run in which two submissions at once both find none, and two are open |
| `Histories.SentBackAfterReplaced` | src/lib/applications/decide.ts:369-388 | a run in which a replaced application is sent back to review, and two are open |
| `Applications.BackfillsNeverMatter` | src/lib/applications/decide-pr.ts:144-151 | over every run of decisions and overlapping calls, whichever writes of account ids succeed, every decision, application and appeal is the same |
| `Applications.Project.DecideForRepo` | src/lib/applications/decide-pr.ts:101-360 | decides as the decision function does, and writes nothing but the account id |
| `Applications.Project.SubmitApplication` | src/lib/applications/lifecycle.ts:61-188 | the first reason against it and nothing written, or a new row after whatever others wrote between its look and its write |
| `Applications.Project.WriteNext` | src/lib/applications/decide.ts:104-558 | one write of a call, in place, is the step of the run; it fails where the row does not admit it |
| `Applications.Project.Carry` | src/lib/applications/decide.ts:450-520 | a call's writes in turn, others writing before each: all of them, or up to where the process stops or one fails |
| `Applications.Project.Perform` | src/lib/applications/decide.ts:104-558 | a call refused by what it read writes nothing; any other is its first writes in turn within the run, as far as it gets |
| `Glob.GlobToRegex` | src/lib/applications/decide-pr.ts:7-20 | the text the loop emits |
| `Glob.GlobIsExact` | src/lib/applications/decide-pr.ts:7-20 | for every pattern the emitted text reads as an expression whose language is the glob's: star any run, question mark any one character, the rest itself in either case |
| `Glob.BypassIsGlobMatch` | src/lib/applications/decide-pr.ts:43-54 | a login is on the bypass list exactly when some non-blank pattern's glob matches it |
| `Paging.PageOfIsExact` | src/lib/cla/store.ts:673-674 | one request brings exactly the rows asked for, on every table, if and only if the take is 1 to the page limit and divides the skip |
| `Paging.PageSize` | src/lib/cla/store.ts:954-957 | the size is the largest up to 50 that divides |
| `Paging.Signatures` | src/lib/cla/store.ts:944-970 | with images and more than a page: exactly the rows from skip to skip + take, whatever the two share |
| `Paging.SignaturesInPages` | src/lib/cla/store.ts:952-970 | the pages concatenate to those rows, with the table's total |
| `Paging.AllPages` | src/lib/cla/store.ts:310-320 | every row once and in order |
| `Paging.LegalList` | src/lib/cla/store.ts:327-333 | so a list kept in Legal is exported whole |
| `LastKnown.RecordedIsRecent` | src/lib/cla/status.ts:101-107 | after each answer the map holds exactly the most recently answered keys, at most 10,000, each with its latest answer |
| `LastKnown.MapIsBounded` | src/lib/cla/status.ts:82-83 | never more than the bound, and a key once |
| `LastKnown.RememberedIsFound` | src/lib/cla/status.ts:109-117 | what is found is the latest answer of the key unless 10,000 other keys were answered since |
| `LastKnown.Memory.Status` | src/lib/cla/status.ts:90-118 | Legal's answer, and in an outage the last one it gave as far as it is remembered, else the error |
| `Credentials.SavesKeepMeaning` | prisma/encrypt-credentials-core.ts:56-62 | what people save affects a column alike whether it holds plain text or its encryption |
| `Credentials.FirstIdsAreAll` | prisma/encrypt-credentials-core.ts:77-83 | a page leaves out no row up to its last |
| `Credentials.TodoIsExact` | prisma/encrypt-credentials-core.ts:86-94 | the work of a page is exactly its plain values, each once |
| `Credentials.ScanPage` | prisma/encrypt-credentials-core.ts:85-94 | the values found are counted, and split into encrypted ones and work |
| `Credentials.Database.UpdateMany` | prisma/encrypt-credentials-core.ts:103-108 | a write takes effect if and only if the column, after what people saved before it, still holds what was read, and the call does not throw before it is done; else it changes nothing |
| `Credentials.Database.WriteBatch` | prisma/encrypt-credentials-core.ts:101-109 | each write takes effect or counts as raced, up to the first that throws; with nobody saving none is raced |
| `Credentials.Database.EncryptModel` | prisma/encrypt-credentials-core.ts:74-110 | one model: finished, nothing plain is left when nobody saves |
| `Credentials.Database.EncryptPlaintextCredentials` | prisma/encrypt-credentials-core.ts:56-114 | whatever people save meanwhile and whichever call throws: only the plain text read is ever replaced, and every column stands for what it would have held without the run; finished, the counts add up; with nobody saving a run cut short leaves each credential as it was or encrypted, a finished one leaves nothing plain, and one that finds nothing plain changes nothing |

## Left out

- Numbers in payloads are integers; floating-point text is not modelled.
- Lower-casing and trimming cover ASCII; a regular expression's case folding likewise.
- A pattern's question mark matches one 16-bit unit; logins are taken to hold no line ends.
- Ledger.EventRoundTrip: payloads have the columns decisions read, with numeric ids; left out are those no decision reads (names, affirmations, images, addresses, time stamps, content hashes, sources, reasons, actors) and the derived minimum-version hint and pending changes of a publish.
- The entry columns the hash does not cover, other than the row links, which the move reads.
- More than one project: every statement is about one project's records.
- A transaction whose first reads see different states, but for a roster's entries: the ids it is asked about are random, so nobody can name a row before its commit is seen.
- The accounts whose rows are passed over after roster rows and company decisions are a parameter; so is every decision's input besides the agreement tables, which stays as it is in a run of passes.
- A signature written inside a transaction its caller owns: it is the same step, committed by the caller.
- The short-lived cache of coverage results and its invalidation.
- Legal's own rules for its staff; only its import is assumed: it takes an entry that re-hashes and extends its chain, ignores one it holds and refuses any other.
- The settings sent to Legal at the start of a move, beyond that the call may fail.
- The reminder passes over pull requests of applicants (`src/lib/cla/post-sign.ts:357-599`), comments, labels, mail and notifications.
- Form validation: whether answers are valid is a parameter.
- Changes of a project's settings, users and manual decisions in a run of calls on applications, but for the account ids filled in.
- Counting approving reviewers: the count is a parameter.
- Loading the repository row by its GitHub id (`src/lib/applications/decide-pr.ts:365-382`), which only wraps the decision.
- The list of all followed projects (`src/lib/cla/follow.ts:153-179`): each is followed on its own.
- User interface, routes, command-line entry points, rate limits, lockdown, terms and the AI runner.
- Migration.MoverRun.MoveClaToLegal: reports the number of chain entries sent, not the number of rows of each kind.
