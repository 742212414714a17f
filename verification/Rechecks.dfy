/**
 The passes over pull requests as they run beside everything else: each row is listed, decided and
 stored at three moments, with commits and other passes anywhere in between, and any call failing.
 */
module Rechecks {
  import opened Wrappers
  import opened Cla
  import opened Runs
  import opened Status
  import opened Regate
  import opened Overlap
  import opened Reports
  import opened PullRequests
  import Gate
  import Moments

  /**
   What a pass has still to do on a row: list it, decide it, or store a verdict. `loss` passes hold
   rows and the others release them; `thenGain` says that the caller drives a release after.
   */
  datatype Duty =
    | Looks(loss: bool, id: nat, thenGain: bool)
    | Decides(loss: bool, id: nat, thenGain: bool)
    | Stores(status: CheckStatus, gateReason: Option<GateReason>, id: nat, thenGain: bool)

  /** `signersRead` are the signers re-flags have read, each set with the re-flag it was read for. */
  datatype Board = Board(state: State, rows: seq<PrRow>, signersRead: set<(Plan, set<int>)>, duties: multiset<Duty>)

  /**
   A transaction reads, a re-flag reads the signers, a transaction commits and its caller starts its
   passes for `ghIds`, a pass does its next duty on a row, the duty fails and the pass goes on, or
   the process stops and the duty is lost.
   */
  datatype Turn =
    | Reads(step: TxStep)
    | ReadsSigners(plan: Plan)
    | Completes(plan: Plan, ghIds: set<int>)
    | Does(duty: Duty)
    | Fails(duty: Duty)
    | Stops(duty: Duty)

  // ---- the steps ----

  predicate Commits(b: Board, turn: Turn)
  {
    turn.Completes? && turn.plan in b.state.plans && Ready(turn.plan) &&
    (turn.plan.SetFlags? ==> (turn.plan, turn.ghIds) in b.signersRead) && Written(b.state, turn.plan).Success?
  }

  /** The passes a commit's caller starts, on every row of the accounts. */
  function DutiesOf(rows: seq<PrRow>, k: Passes, ghIds: set<int>): set<Duty>
  {
    if k == NoPass then {}
    else set i | 0 <= i < |rows| && rows[i].ghId in ghIds :: Looks(k != GainOnly, i, k == BothWays)
  }

  predicate Lists(loss: bool, row: PrRow) { if loss then row.status == Passing else HeldForCla(row) }

  /** What a pass decides to store, none where it leaves the row. */
  function Verdict(e: Setting, t: Tables, loss: bool, row: PrRow): Option<(CheckStatus, Option<GateReason>)>
    requires InScope(e, row)
  {
    var d := Fresh(e, t, row);
    if loss then if d.CheckRequired? then Some((Gated, Some(if d.stale then ClaStale else ClaRequired))) else None
    else if Allows(d) then Some((Passing, None)) else None
  }

  function Following(d: Duty): multiset<Duty>
  {
    if d.thenGain then multiset{Looks(false, d.id, false)} else multiset{}
  }

  function Stored(row: PrRow, d: Duty): PrRow
    requires d.Stores?
  {
    row.(status := d.status, gateReason := d.gateReason)
  }

  /** What doing a duty makes of it. */
  function Becomes(e: Setting, t: Tables, row: PrRow, d: Duty): multiset<Duty>
  {
    match d
    case Looks(loss, id, then_) => if InScope(e, row) && Lists(loss, row) then multiset{Decides(loss, id, then_)} else Following(d)
    case Decides(loss, id, then_) =>
      if InScope(e, row) && Verdict(e, t, loss, row).Some? then
        var v := Verdict(e, t, loss, row).value; multiset{Stores(v.0, v.1, id, then_)}
      else Following(d)
    case Stores(_, _, _, _) => Following(d)
  }

  function Done(e: Setting, b: Board, d: Duty): Board
    requires d.id < |b.rows|
  {
    var row, rest := b.rows[d.id], b.duties - multiset{d};
    var next := b.(duties := rest + Becomes(e, b.state.tables, row, d));
    if d.Stores? then next.(rows := b.rows[d.id := Stored(row, d)]) else next
  }

  function Taken(e: Setting, b: Board, turn: Turn): Board
  {
    match turn
    case Reads(step) => if step.Write? then b else b.(state := Take(b.state, step))
    case ReadsSigners(plan) =>
      if plan.SetFlags? && plan in b.state.plans
      then b.(signersRead := b.signersRead + {(plan, ActiveSigners(b.state.tables, plan.kind, NamedIn(plan.changes)))})
      else b
    case Completes(plan, ghIds) =>
      if Commits(b, turn) then
        b.(state := Take(b.state, Write(plan)),
           duties := b.duties + multiset(DutiesOf(b.rows, PassesOf(plan), Reported(b.state.tables, plan, ghIds))))
      else b
    case Does(d) => if d in b.duties && d.id < |b.rows| then Done(e, b, d) else b
    case Fails(d) => if d in b.duties then b.(duties := b.duties - multiset{d} + Following(d)) else b
    case Stops(d) => if d in b.duties then b.(duties := b.duties - multiset{d}) else b
  }

  function Turns(e: Setting, b: Board, turns: seq<Turn>): Board
  {
    if turns == [] then b else Taken(e, Turns(e, b, turns[..|turns| - 1]), turns[|turns| - 1])
  }

  // ---- what every turn keeps ----

  /** A duty that will put right a row that passes but should be held, or is held but should pass. */
  predicate Helps(d: Duty, i: nat, row: PrRow)
  {
    d.id == i &&
    if row.status == Passing then (if d.Stores? then d.status == Gated else d.loss)
    else d.thenGain || (if d.Stores? then d.status == Passing else !d.loss)
  }

  ghost predicate Helped(duties: multiset<Duty>, i: nat, row: PrRow)
  {
    exists d :: d in duties && Helps(d, i, row)
  }

  predicate IsVerdict(d: Duty)
    requires d.Stores?
  {
    (d.status == Passing && d.gateReason == None && !d.thenGain) ||
    (d.status == Gated && (d.gateReason == Some(ClaRequired) || d.gateReason == Some(ClaStale)))
  }

  predicate DutyFits(e: Setting, rows: seq<PrRow>, d: Duty)
  {
    d.id < |rows| && (!d.Looks? ==> InScope(e, rows[d.id])) && if d.Stores? then IsVerdict(d) else d.thenGain ==> d.loss
  }

  ghost predicate DutiesFit(e: Setting, b: Board)
  {
    forall d :: d in b.duties ==> DutyFits(e, b.rows, d)
  }

  /** The row agrees with what the gate would decide now, or a pass has still to put it right. */
  ghost predicate RowKept(e: Setting, b: Board, i: nat)
    requires i < |b.rows|
  {
    SettledRow(e, b.state.tables, b.rows[i]) || Helped(b.duties, i, b.rows[i])
  }

  ghost predicate Kept(e: Setting, b: Board)
  {
    Sane(b.state) && DutiesFit(e, b) && forall i :: 0 <= i < |b.rows| ==> RowKept(e, b, i)
  }

  ghost predicate TurnsRow(e: Setting, t: Tables, b: Board, i: nat)
    requires i < |b.rows|
  {
    AgreementDecides(e, b.rows[i]) && TurnsAgainst(t, b.state.tables, b.rows[i]) && !Helped(b.duties, i, b.rows[i])
  }

  ghost predicate LeavesRow(e: Setting, b: Board, i: nat)
  {
    i < |b.rows| && !SettledRow(e, b.state.tables, b.rows[i]) && !Helped(b.duties, i, b.rows[i])
  }

  /**
   With no pass to put it right: a commit turns an author's answer against a row, a verdict is stored
   that the gate would no longer give, or a failing or lost duty leaves a row wrong.
   */
  ghost predicate Breaks(e: Setting, b: Board, turn: Turn)
  {
    var r := Taken(e, b, turn);
    match turn
    case Reads(_) => false
    case ReadsSigners(_) => false
    case Completes(_, _) => Commits(b, turn) && exists i :: 0 <= i < |r.rows| && TurnsRow(e, b.state.tables, r, i)
    case Does(d) => d in b.duties && d.Stores? && LeavesRow(e, r, d.id)
    case Fails(d) => d in b.duties && LeavesRow(e, r, d.id)
    case Stops(d) => d in b.duties && LeavesRow(e, r, d.id)
  }

  lemma MoreHelp(before: multiset<Duty>, after: multiset<Duty>, i: nat, row: PrRow)
    requires before <= after && Helped(before, i, row)
    ensures Helped(after, i, row)
  {
  }

  /** Duties on other rows stay. */
  lemma HelpElsewhere(duties: multiset<Duty>, d: Duty, more: multiset<Duty>, i: nat, row: PrRow)
    requires d in duties && d.id != i && Helped(duties, i, row)
    ensures Helped(duties - multiset{d} + more, i, row)
  {
    var h :| h in duties && Helps(h, i, row);
    assert h in duties - multiset{d} + more;
  }

  /** On the row itself: the duty helped, and what it becomes does; or another one helps. */
  lemma HelpHere(duties: multiset<Duty>, d: Duty, more: multiset<Duty>, i: nat, row: PrRow)
    requires d in duties && Helped(duties, i, row) && (Helps(d, i, row) ==> Helped(more, i, row))
    ensures Helped(duties - multiset{d} + more, i, row)
  {
    var rest := duties - multiset{d};
    if Helps(d, i, row) {
      MoreHelp(more, rest + more, i, row);
    } else {
      var h :| h in duties && Helps(h, i, row);
      assert h in rest + more;
    }
  }

  lemma Helping(d: Duty, duties: multiset<Duty>, i: nat, row: PrRow)
    requires d in duties && Helps(d, i, row)
    ensures Helped(duties, i, row)
  {
  }

  lemma LooksOn(e: Setting, t: Tables, row: PrRow, d: Duty)
    requires d.Looks? && InScope(e, row) && (row.status == Passing || HeldForCla(row)) && Helps(d, d.id, row)
    ensures Helped(Becomes(e, t, row, d), d.id, row)
  {
    Helping(if Lists(d.loss, row) then Decides(d.loss, d.id, d.thenGain) else Looks(false, d.id, false), Becomes(e, t, row, d), d.id, row);
  }

  lemma DecidesOn(e: Setting, t: Tables, row: PrRow, d: Duty)
    requires d.Decides? && InScope(e, row) && Helps(d, d.id, row)
    requires (row.status == Passing && Fresh(e, t, row).CheckRequired?) || (HeldForCla(row) && Allows(Fresh(e, t, row)))
    ensures Helped(Becomes(e, t, row, d), d.id, row)
  {
    var v := Verdict(e, t, d.loss, row);
    Helping(if v.Some? then Stores(v.value.0, v.value.1, d.id, d.thenGain) else Looks(false, d.id, false),
            Becomes(e, t, row, d), d.id, row);
  }

  /** Listing and deciding never lose sight of a row that is wrong. */
  lemma GoesOn(e: Setting, t: Tables, row: PrRow, d: Duty)
    requires !d.Stores? && !SettledRow(e, t, row) && Helps(d, d.id, row)
    ensures Helped(Becomes(e, t, row, d), d.id, row)
  {
    if d.Looks? {
      LooksOn(e, t, row, d);
    } else {
      DecidesOn(e, t, row, d);
    }
  }

  lemma BecomesFits(e: Setting, t: Tables, rows: seq<PrRow>, d: Duty)
    requires DutyFits(e, rows, d)
    ensures forall x :: x in Becomes(e, t, rows[d.id], d) ==> DutyFits(e, rows, x)
    ensures forall x :: x in Following(d) ==> DutyFits(e, rows, x)
  {
  }

  lemma DoneFits(e: Setting, b: Board, d: Duty)
    requires DutiesFit(e, b) && d in b.duties
    ensures DutiesFit(e, Done(e, b, d))
  {
    BecomesFits(e, b.state.tables, b.rows, d);
    var r := Done(e, b, d);
    forall x | x in r.duties ensures DutyFits(e, r.rows, x) {
      assert x in b.duties || x in Becomes(e, b.state.tables, b.rows[d.id], d);
    }
  }

  lemma DoneKeeps(e: Setting, b: Board, d: Duty)
    requires Kept(e, b) && d in b.duties
    ensures Kept(e, Done(e, b, d)) <==> !(d.Stores? && LeavesRow(e, Done(e, b, d), d.id))
  {
    DoneFits(e, b, d);
    var r, more := Done(e, b, d), Becomes(e, b.state.tables, b.rows[d.id], d);
    forall i | 0 <= i < |b.rows| && i != d.id ensures RowKept(e, r, i) {
      assert RowKept(e, b, i);
      if !SettledRow(e, b.state.tables, b.rows[i]) {
        HelpElsewhere(b.duties, d, more, i, b.rows[i]);
      }
    }
    if !d.Stores? && !SettledRow(e, b.state.tables, b.rows[d.id]) {
      assert RowKept(e, b, d.id);
      if Helps(d, d.id, b.rows[d.id]) {
        GoesOn(e, b.state.tables, b.rows[d.id], d);
      }
      HelpHere(b.duties, d, more, d.id, b.rows[d.id]);
    }
    assert RowKept(e, r, d.id) <==> !LeavesRow(e, r, d.id);
  }

  /** A duty that is gone, with what follows it. */
  lemma GoneKeeps(e: Setting, b: Board, d: Duty, more: multiset<Duty>)
    requires Kept(e, b) && d in b.duties && more <= Following(d)
    ensures var r := b.(duties := b.duties - multiset{d} + more); Kept(e, r) <==> !LeavesRow(e, r, d.id)
  {
    var r := b.(duties := b.duties - multiset{d} + more);
    BecomesFits(e, b.state.tables, b.rows, d);
    forall x | x in r.duties ensures DutyFits(e, r.rows, x) {
      assert x in b.duties || x in Following(d);
    }
    forall i | 0 <= i < |b.rows| && i != d.id ensures RowKept(e, r, i) {
      assert RowKept(e, b, i);
      if !SettledRow(e, b.state.tables, b.rows[i]) {
        HelpElsewhere(b.duties, d, more, i, b.rows[i]);
      }
    }
    assert RowKept(e, r, d.id) <==> !LeavesRow(e, r, d.id);
  }

  /** A row that was kept is wrong after a commit exactly where the answer turned against it. */
  lemma CommitTurnsRow(e: Setting, t: Tables, b: Board, i: nat, duties: multiset<Duty>)
    requires i < |b.rows| && (SettledRow(e, t, b.rows[i]) || Helped(duties, i, b.rows[i])) && duties <= b.duties
    ensures RowKept(e, b, i) <==> !TurnsRow(e, t, b, i)
  {
    var row := b.rows[i];
    if Helped(duties, i, row) {
      MoreHelp(duties, b.duties, i, row);
    } else {
      MissedIsChanged(e, t, b.state.tables, NoPass, {}, row);
    }
  }

  lemma CommitKeeps(e: Setting, b: Board, turn: Turn)
    requires Kept(e, b) && Commits(b, turn)
    ensures Kept(e, Taken(e, b, turn)) <==> !Breaks(e, b, turn)
  {
    var r := Taken(e, b, turn);
    TakeKeepsSane(b.state, Write(turn.plan));
    forall x | x in r.duties ensures DutyFits(e, r.rows, x) {
    }
    forall i | 0 <= i < |b.rows| ensures RowKept(e, r, i) <==> !TurnsRow(e, b.state.tables, r, i) {
      assert RowKept(e, b, i);
      CommitTurnsRow(e, b.state.tables, r, i, b.duties);
    }
  }

  lemma TurnKeeps(e: Setting, b: Board, turn: Turn)
    requires Kept(e, b)
    ensures Kept(e, Taken(e, b, turn)) <==> !Breaks(e, b, turn)
  {
    match turn
    case Reads(step) => if !step.Write? { ReadKeeps(e, b, step); }
    case ReadsSigners(_) => SignersKeep(e, b, turn);
    case Completes(_, _) => if Commits(b, turn) { CommitKeeps(e, b, turn); }
    case Does(d) => if d in b.duties { assert DutyFits(e, b.rows, d); DoneKeeps(e, b, d); }
    case Fails(d) => if d in b.duties { GoneKeeps(e, b, d, Following(d)); }
    case Stops(d) =>
      if d in b.duties {
        assert b.duties - multiset{d} + multiset{} == b.duties - multiset{d};
        GoneKeeps(e, b, d, multiset{});
      }
  }

  lemma ReadKeeps(e: Setting, b: Board, step: TxStep)
    requires Kept(e, b) && !step.Write?
    ensures Kept(e, b.(state := Take(b.state, step)))
  {
    TakeKeepsSane(b.state, step);
    var r := b.(state := Take(b.state, step));
    forall i | 0 <= i < |b.rows| ensures RowKept(e, r, i) {
      assert RowKept(e, b, i);
    }
  }

  lemma SignersKeep(e: Setting, b: Board, turn: Turn)
    requires Kept(e, b) && turn.ReadsSigners?
    ensures Kept(e, Taken(e, b, turn))
  {
    var r := Taken(e, b, turn);
    forall i | 0 <= i < |b.rows| ensures RowKept(e, r, i) {
      assert RowKept(e, b, i);
    }
  }

  // ---- over runs ----

  ghost predicate KeptAt(e: Setting, b: Board, turns: seq<Turn>, k: nat)
  {
    k <= |turns| && Kept(e, Turns(e, b, turns[..k]))
  }

  ghost predicate BreaksAt(e: Setting, b: Board, turns: seq<Turn>, k: nat)
  {
    k < |turns| && Breaks(e, Turns(e, b, turns[..k]), turns[k])
  }

  ghost predicate AlwaysKept(e: Setting, b: Board, turns: seq<Turn>)
  {
    forall k: nat :: k <= |turns| ==> KeptAt(e, b, turns, k)
  }

  ghost predicate NoneBreaks(e: Setting, b: Board, turns: seq<Turn>)
  {
    forall k: nat :: k < |turns| ==> !BreaksAt(e, b, turns, k)
  }

  lemma NextKeeps(e: Setting, b: Board, turns: seq<Turn>, k: nat)
    requires k < |turns| && KeptAt(e, b, turns, k)
    ensures KeptAt(e, b, turns, k + 1) <==> !BreaksAt(e, b, turns, k)
  {
    assert turns[..k + 1][..k] == turns[..k];
    assert Turns(e, b, turns[..k + 1]) == Taken(e, Turns(e, b, turns[..k]), turns[k]);
    TurnKeeps(e, Turns(e, b, turns[..k]), turns[k]);
  }

  lemma NothingLeft(e: Setting, b: Board)
    requires Kept(e, b) && b.duties == multiset{}
    ensures Settled(e, b.state.tables, b.rows)
  {
    forall i | 0 <= i < |b.rows| ensures SettledRow(e, b.state.tables, b.rows[i]) {
      assert RowKept(e, b, i);
    }
  }

  /**
   Over every run of overlapping transactions of every kind and of the passes their callers drive:
   at every moment each row in scope agrees with what the gate would decide now or has a pass still
   to put it right, if and only if no turn breaks that. When no pass is left all rows then agree.
   */
  lemma RowsStayRight(e: Setting, b: Board, turns: seq<Turn>)
    requires Kept(e, b)
    ensures AlwaysKept(e, b, turns) <==> NoneBreaks(e, b, turns)
    ensures var r := Turns(e, b, turns); NoneBreaks(e, b, turns) && r.duties == multiset{} ==> Settled(e, r.state.tables, r.rows)
  {
    KeptUnless(e, b, turns);
    if NoneBreaks(e, b, turns) && Turns(e, b, turns).duties == multiset{} {
      assert turns[..|turns|] == turns && KeptAt(e, b, turns, |turns|);
      NothingLeft(e, Turns(e, b, turns));
    }
  }

  lemma KeptUnless(e: Setting, b: Board, turns: seq<Turn>)
    requires Kept(e, b)
    ensures AlwaysKept(e, b, turns) <==> NoneBreaks(e, b, turns)
  {
    var good, bad := (k: nat) => KeptAt(e, b, turns, k), (k: nat) => BreaksAt(e, b, turns, k);
    assert turns[..0] == [] && good(0);
    forall k: nat | k < |turns| && good(k) ensures good(k + 1) <==> !bad(k) {
      NextKeeps(e, b, turns, k);
    }
    Moments.HoldsUnless(good, bad, |turns|);
    assert forall k: nat :: good(k) == KeptAt(e, b, turns, k);
    assert forall k: nat :: bad(k) == BreaksAt(e, b, turns, k);
  }

  // ---- when nothing breaks, and when something does ----

  /** Where the agreement decides, the gate asks exactly of authors not covered and lets the others through. */
  lemma DecidedByAnswer(e: Setting, t: Tables, row: PrRow)
    requires AgreementDecides(e, row)
    ensures Fresh(e, t, row).CheckRequired? <==> !Satisfied(t, row.ghId, row.ghLogin)
    ensures Allows(Fresh(e, t, row)) <==> Satisfied(t, row.ghId, row.ghLogin)
  {
    Gate.ClaGateIsExact(e.world, e.repos[row.repoId], AuthorOf(e, row), e.now, LocalStatus(t, row.ghId, row.ghLogin));
  }

  /** A commit whose report is on time breaks nothing. */
  lemma OnTimeBreaksNothing(e: Setting, b: Board, turn: Turn)
    requires Kept(e, b) && Commits(b, turn) && OnTime(b.state.tables, turn.plan, turn.ghIds)
    ensures !Breaks(e, b, turn)
  {
    var t, r := b.state.tables, Taken(e, b, turn);
    var k, ghIds := PassesOf(turn.plan), Reported(t, turn.plan, turn.ghIds);
    assert r.state.tables == Finish(t, turn.plan).value.tables;
    ReportIsComplete(t, turn.plan, turn.ghIds);
    if turn.plan.SignVersion? {
      NewSignature(t, r.state.tables, turn.plan.versionId, turn.plan.ghId, turn.plan.ghLogin);
    }
    forall i | 0 <= i < |r.rows| ensures !TurnsRow(e, t, r, i) {
      var row := b.rows[i];
      if TurnsAgainst(t, r.state.tables, row) {
        assert row.ghId in ghIds && k != NoPass;
        SeenByPass(b, r.duties, k, ghIds, i);
      }
    }
  }

  /** The passes that were just started help a row they name, unless it needs the direction they lack. */
  lemma SeenByPass(b: Board, duties: multiset<Duty>, k: Passes, ghIds: set<int>, i: nat)
    requires i < |b.rows| && b.rows[i].ghId in ghIds && k != NoPass && b.duties + multiset(DutiesOf(b.rows, k, ghIds)) <= duties
    requires if b.rows[i].status == Passing then k != GainOnly else k != LossOnly
    ensures Helped(duties, i, b.rows[i])
  {
    var d := Looks(k != GainOnly, i, k == BothWays);
    assert d in DutiesOf(b.rows, k, ghIds);
    assert d in multiset(DutiesOf(b.rows, k, ghIds));
    Helping(d, duties, i, b.rows[i]);
  }

  /** Rows keep their place, author and repository. */
  predicate SameRow(row: PrRow, later: PrRow)
  {
    later == row.(status := later.status, gateReason := later.gateReason)
  }

  lemma {:induction false} RowsStay(e: Setting, b: Board, turns: seq<Turn>, i: nat)
    requires i < |b.rows|
    ensures var r := Turns(e, b, turns); |r.rows| == |b.rows| && SameRow(b.rows[i], r.rows[i])
    decreases |turns|
  {
    if turns != [] {
      RowsStay(e, b, turns[..|turns| - 1], i);
    }
  }

  /**
   A verdict decided and stored later, with anything in between, leaves its row in agreement with the
   gate exactly if the author's answer is again what it was, or the agreement does not decide.
   */
  lemma LateVerdict(e: Setting, b: Board, loss: bool, id: nat, between: seq<Turn>)
    requires id < |b.rows| && InScope(e, b.rows[id]) && Verdict(e, b.state.tables, loss, b.rows[id]).Some?
    ensures var row := b.rows[id]; var r := Turns(e, b, between); var v := Verdict(e, b.state.tables, loss, row).value;
      |r.rows| == |b.rows| &&
      (SettledRow(e, r.state.tables, r.rows[id].(status := v.0, gateReason := v.1)) <==>
       !AgreementDecides(e, row) ||
       Satisfied(r.state.tables, row.ghId, row.ghLogin) == Satisfied(b.state.tables, row.ghId, row.ghLogin))
  {
    var row, u := b.rows[id], Turns(e, b, between).state.tables;
    RowsStay(e, b, between, id);
    var a := AuthorOf(e, row);
    Gate.ClaGateIsExact(e.world, e.repos[row.repoId], a, e.now, LocalStatus(b.state.tables, row.ghId, row.ghLogin));
    Gate.ClaGateIsExact(e.world, e.repos[row.repoId], a, e.now, LocalStatus(u, row.ghId, row.ghLogin));
  }

  lemma TurnMore(e: Setting, b: Board, turns: seq<Turn>, r: Board, turn: Turn) returns (more: seq<Turn>, r': Board)
    requires r == Turns(e, b, turns)
    ensures r' == Turns(e, b, more) && r' == Taken(e, r, turn)
  {
    more, r' := turns + [turn], Taken(e, r, turn);
    assert more[..|turns|] == turns;
  }

  /** The row with the verdict on it, if there is one. */
  function Judged(row: PrRow, v: Option<(CheckStatus, Option<GateReason>)>): PrRow
  {
    if v.Some? then row.(status := v.value.0, gateReason := v.value.1) else row
  }

  /** Decided and stored with nothing in between. */
  lemma DecidedAtOnce(e: Setting, b: Board, loss: bool, id: nat) returns (turns: seq<Turn>)
    requires id < |b.rows| && InScope(e, b.rows[id]) && Decides(loss, id, false) in b.duties
    ensures Turns(e, b, turns) == b.(
      rows := b.rows[id := Judged(b.rows[id], Verdict(e, b.state.tables, loss, b.rows[id]))],
      duties := b.duties - multiset{Decides(loss, id, false)})
  {
    var d, v := Decides(loss, id, false), Verdict(e, b.state.tables, loss, b.rows[id]);
    var r;
    turns, r := TurnMore(e, b, [], b, Does(d));
    if v.Some? {
      turns := StoredAtOnce(e, b, turns, r, Stores(v.value.0, v.value.1, id, false), b.duties - multiset{d});
    }
  }

  lemma StoredAtOnce(e: Setting, b: Board, turns: seq<Turn>, r: Board, store: Duty, rest: multiset<Duty>) returns (more: seq<Turn>)
    requires r == Turns(e, b, turns) && store.Stores? && store.id < |r.rows| && !store.thenGain
    requires r.duties == rest + multiset{store}
    ensures Turns(e, b, more) == r.(rows := r.rows[store.id := Stored(r.rows[store.id], store)], duties := rest)
  {
    assert r.duties - multiset{store} + multiset{} == rest;
    var r';
    more, r' := TurnMore(e, b, turns, r, Does(store));
  }

  lemma {:induction false} TurnsConcat(e: Setting, b: Board, first: seq<Turn>, second: seq<Turn>)
    ensures Turns(e, b, first + second) == Turns(e, Turns(e, b, first), second)
    decreases |second|
  {
    if second == [] {
      assert first + second == first;
    } else {
      assert (first + second)[..|first + second| - 1] == first + second[..|second| - 1];
      TurnsConcat(e, b, first, second[..|second| - 1]);
    }
  }

  /** What a pass as a whole makes of a row. */
  function WholePass(e: Setting, t: Tables, loss: bool, row: PrRow): PrRow
  {
    if loss then RegatedRow(e, t, {row.ghId}, true, row) else ReleasedRow(e, t, row.ghId, true, row)
  }

  lemma JudgedIsWhole(e: Setting, t: Tables, loss: bool, row: PrRow)
    ensures WholePass(e, t, loss, row) == if InScope(e, row) && Lists(loss, row) then Judged(row, Verdict(e, t, loss, row)) else row
  {
  }

  /** Listed, decided and stored with nothing in between, a row is what the pass as a whole makes of it. */
  lemma RowAtOnce(e: Setting, b: Board, loss: bool, id: nat) returns (turns: seq<Turn>)
    requires id < |b.rows| && Looks(loss, id, false) in b.duties
    ensures Turns(e, b, turns) == b.(
      rows := b.rows[id := WholePass(e, b.state.tables, loss, b.rows[id])], duties := b.duties - multiset{Looks(loss, id, false)})
  {
    var row, looks, decides := b.rows[id], Looks(loss, id, false), Decides(loss, id, false);
    JudgedIsWhole(e, b.state.tables, loss, row);
    var r;
    turns, r := TurnMore(e, b, [], b, Does(looks));
    if InScope(e, row) && Lists(loss, row) {
      assert r == b.(duties := b.duties - multiset{looks} + multiset{decides});
      assert r.duties - multiset{decides} == b.duties - multiset{looks};
      var more := DecidedAtOnce(e, r, loss, id);
      TurnsConcat(e, b, turns, more);
      turns := turns + more;
    }
  }

  // ---- a row left wrong ----

  /** A project that asks for the agreement and nothing else, with one repository. */
  function OneRepository(): Setting
  {
    Setting(
      Gate.World(Gate.Settings(true, [], false, false, true, true, true, None, 0), map[], [], []),
      [Gate.Repo(0, true, Some(1), [], false)], 0, (repoId: nat, ghId: int) => Gate.Outsider)
  }

  const HELD := PrRow(0, 7, [], Gated, Some(ClaRequired))

  lemma AgreementDecidesHere(status: CheckStatus, reason: Option<GateReason>)
    ensures AgreementDecides(OneRepository(), HELD.(status := status, gateReason := reason))
  {
  }

  lemma OneDuty(row: PrRow, k: Passes)
    requires k != NoPass
    ensures DutiesOf([row], k, {row.ghId}) == {Looks(k != GainOnly, 0, k == BothWays)}
  {
    assert [row][0].ghId in {row.ghId};
  }

  /** The author signs and the pass lists the row. */
  lemma ListedToRelease() returns (steps: seq<TxStep>, b: Board, turns: seq<Turn>, r: Board)
    ensures b == Board(Run(Initial(true), steps), [HELD], {}, multiset{}) && SettledRow(OneRepository(), b.state.tables, HELD)
    ensures r == Turns(OneRepository(), b, turns) && r.rows == [HELD] && r.duties == multiset{Looks(false, 0, false)}
    ensures PublishAs(Icla, 2, true, []) in r.state.plans && !r.state.moved && r.state.tables.versions == [Version(Icla, 1, false)]
    ensures r.state.tables.signatures == [Signature(Icla, 0, 7, [], true)] && r.state.tables.waivers == []
  {
    var s;
    steps, s := SigningMeetsPublish();
    b := Board(s, [HELD], {}, multiset{});
    AgreementDecidesHere(HELD.status, HELD.gateReason);
    DecidedByAnswer(OneRepository(), s.tables, HELD);
    OneDuty(HELD, GainOnly);
    turns, r := TurnMore(OneRepository(), b, [], b, Completes(SignVersion(7, [], 0), {}));
  }

  /** And decides to release it. */
  lemma DecidedToRelease() returns (steps: seq<TxStep>, b: Board, turns: seq<Turn>, r: Board)
    ensures b == Board(Run(Initial(true), steps), [HELD], {}, multiset{}) && SettledRow(OneRepository(), b.state.tables, HELD)
    ensures r == Turns(OneRepository(), b, turns) && r.rows == [HELD] && r.duties == multiset{Stores(Passing, None, 0, false)}
    ensures PublishAs(Icla, 2, true, []) in r.state.plans && !r.state.moved && r.state.tables.versions == [Version(Icla, 1, false)]
    ensures r.state.tables.signatures == [Signature(Icla, 0, 7, [], true)] && r.state.tables.waivers == []
  {
    steps, b, turns, r := ListedToRelease();
    CoveredByFirst(r.state.tables);
    AgreementDecidesHere(HELD.status, HELD.gateReason);
    DecidedByAnswer(OneRepository(), r.state.tables, HELD);
    turns, r := TurnMore(OneRepository(), b, turns, r, Does(Looks(false, 0, false)));
    assert r.duties == multiset{Decides(false, 0, false)};
    turns, r := TurnMore(OneRepository(), b, turns, r, Does(Decides(false, 0, false)));
  }

  /**
   A text everyone must sign is published before the verdict is stored: its own passes find the row
   held and leave it, then the row is released. It passes, its author is not covered and no pass is left.
   */
  lemma PassedThoughMarked() returns (steps: seq<TxStep>, b: Board, turns: seq<Turn>, r: Board)
    ensures b == Board(Run(Initial(true), steps), [HELD], {}, multiset{}) && SettledRow(OneRepository(), b.state.tables, HELD)
    ensures r == Turns(OneRepository(), b, turns) && r.duties == multiset{} && r.rows == [HELD.(status := Passing, gateReason := None)]
    ensures !Satisfied(r.state.tables, 7, []) && !Settled(OneRepository(), r.state.tables, r.rows)
  {
    steps, b, turns, r := DecidedToRelease();
    turns, r := MarkedMeanwhile(b, turns, r);
    var stores := Stores(Passing, None, 0, false);
    turns, r := PublishFindsItHeld(b, turns, r, stores);
    turns, r := TurnMore(OneRepository(), b, turns, r, Does(stores));
    AgreementDecidesHere(Passing, None);
    DecidedByAnswer(OneRepository(), r.state.tables, r.rows[0]);
    assert !SettledRow(OneRepository(), r.state.tables, r.rows[0]);
  }

  /** The text is published while a verdict waits; the signer is reported and both passes start. */
  lemma MarkedMeanwhile(b: Board, turns: seq<Turn>, r: Board) returns (more: seq<Turn>, r': Board)
    requires r == Turns(OneRepository(), b, turns) && r.rows == [HELD]
    requires PublishAs(Icla, 2, true, []) in r.state.plans && !r.state.moved && r.state.tables.versions == [Version(Icla, 1, false)]
    requires r.state.tables.signatures == [Signature(Icla, 0, 7, [], true)] && r.state.tables.waivers == []
    ensures r' == Turns(OneRepository(), b, more) && r'.rows == [HELD] && r'.duties == r.duties + multiset{Looks(true, 0, true)}
    ensures !Satisfied(r'.state.tables, 7, [])
  {
    var publish := PublishAs(Icla, 2, true, []);
    MarkingPublish(r.state.tables);
    WriteMarks(r.state, publish);
    more, r' := TurnMore(OneRepository(), b, turns, r, Completes(publish, {}));
    CoveredByFirst(r'.state.tables);
    SignerIsReported(r.state.tables, r'.state.tables);
    OneDuty(HELD, BothWays);
  }

  lemma SignerIsReported(t: Tables, u: Tables)
    requires t.versions == [Version(Icla, 1, false)] && u.signatures == [Signature(Icla, 0, 7, [], true)]
    ensures ActiveSigners(u, Icla, StaleIds(t.versions, Icla, true, [])) == {7}
  {
    var stale := StaleIds(t.versions, Icla, true, []);
    assert 0 in stale && SignsOn(u.signatures[0], stale);
  }

  /** Its passes look at the row while it is held, and leave it. */
  lemma PublishFindsItHeld(b: Board, turns: seq<Turn>, r: Board, waiting: Duty) returns (more: seq<Turn>, r': Board)
    requires r == Turns(OneRepository(), b, turns) && r.rows == [HELD] && !Satisfied(r.state.tables, 7, [])
    requires r.duties == multiset{waiting} + multiset{Looks(true, 0, true)}
    ensures r' == Turns(OneRepository(), b, more) && r' == r.(duties := multiset{waiting})
  {
    NobodyReleases(r.state.tables);
    more, r' := DoneBeside(b, turns, r, waiting, Looks(true, 0, true), multiset{Looks(false, 0, false)});
    more, r' := DoneBeside(b, more, r', waiting, Looks(false, 0, false), multiset{Decides(false, 0, false)});
    more, r' := DoneBeside(b, more, r', waiting, Decides(false, 0, false), multiset{});
    assert multiset{waiting} + multiset{} == multiset{waiting};
  }

  lemma NobodyReleases(t: Tables)
    requires !Satisfied(t, 7, [])
    ensures Becomes(OneRepository(), t, HELD, Looks(true, 0, true)) == multiset{Looks(false, 0, false)}
    ensures Becomes(OneRepository(), t, HELD, Looks(false, 0, false)) == multiset{Decides(false, 0, false)}
    ensures Becomes(OneRepository(), t, HELD, Decides(false, 0, false)) == multiset{}
  {
    AgreementDecidesHere(HELD.status, HELD.gateReason);
    DecidedByAnswer(OneRepository(), t, HELD);
  }

  lemma DoneBeside(b: Board, turns: seq<Turn>, r: Board, waiting: Duty, d: Duty, next: multiset<Duty>)
    returns (more: seq<Turn>, r': Board)
    requires r == Turns(OneRepository(), b, turns) && r.rows == [HELD] && d.id == 0 && !d.Stores?
    requires r.duties == multiset{waiting} + multiset{d} && Becomes(OneRepository(), r.state.tables, HELD, d) == next
    ensures r' == Turns(OneRepository(), b, more) && r' == r.(duties := multiset{waiting} + next)
  {
    assert multiset{waiting} + multiset{d} - multiset{d} == multiset{waiting};
    more, r' := TurnMore(OneRepository(), b, turns, r, Does(d));
  }
}
