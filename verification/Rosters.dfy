/**
 How long a disputed membership keeps its account off a company's roster: over every run, exactly
 while some row for it was last disputed and not revoked since.
 */
module Rosters {
  import opened Wrappers
  import opened Text
  import opened Cla
  import opened Runs
  import opened Overlap

  /** The status some events leave a roster row with: the last that names it decides. */
  function MemberStep(e: Event, id: nat, before: MemberStatus): MemberStatus
  {
    match e
    case RosterAdded(m, _, _, _) => if m == id then Listed else before
    case RosterRevoked(m, _, _, _) => if m == id then Removed else before
    case RosterDisputed(m, _, _, _) => if m == id then Disputed else before
    case _ => before
  }

  function MemberAfter(events: seq<Event>, id: nat, before: MemberStatus): MemberStatus
  {
    if events == [] then before else MemberStep(events[|events| - 1], id, MemberAfter(events[..|events| - 1], id, before))
  }

  lemma {:induction false} MemberAfterConcat(a: seq<Event>, b: seq<Event>, id: nat, before: MemberStatus)
    ensures MemberAfter(a + b, id, before) == MemberAfter(b, id, MemberAfter(a, id, before))
    decreases |b|
  {
    if b == [] {
      assert a + b == a;
    } else {
      assert (a + b)[..|a + b| - 1] == a + b[..|b| - 1];
      MemberAfterConcat(a, b[..|b| - 1], id, before);
    }
  }

  lemma OneMemberEvent(e: Event, id: nat, before: MemberStatus)
    ensures MemberAfter([e], id, before) == MemberStep(e, id, before)
  {
    assert [e][..0] == [];
  }

  /** Events that list the rows from `n` on. */
  ghost predicate Lists(events: seq<Event>, n: nat)
  {
    forall j :: 0 <= j < |events| ==> events[j].RosterAdded? && events[j].memberId == n + j
  }

  lemma {:induction false} ListedAfter(events: seq<Event>, n: nat, id: nat, before: MemberStatus)
    requires Lists(events, n)
    ensures MemberAfter(events, id, before) == if n <= id < n + |events| then Listed else before
    decreases |events|
  {
    if events != [] {
      var init := events[..|events| - 1];
      assert Lists(init, n);
      ListedAfter(init, n, id, before);
    }
  }

  lemma RosterLists(t: Tables, c: nat, entries: seq<RosterEntry>)
    requires entries != []
    ensures var u := FinishRoster(t, c, entries);
      Lists(u.events, |t.roster|) && |u.tables.roster| == |t.roster| + |u.events| && t.roster <= u.tables.roster &&
      forall i :: |t.roster| <= i < |u.tables.roster| ==> u.tables.roster[i].status == Listed
  {
    AddEntriesAre(t.roster + [Enlisted(c, entries[0])], c, entries[1..]);
    var u, n := FinishRoster(t, c, entries), |t.roster|;
    forall j | 0 <= j < |u.events| ensures u.events[j].RosterAdded? && u.events[j].memberId == n + j {
      var k := n + j;
      if j > 0 {
        assert u.events[j] == RosterAdded(k, c, u.tables.roster[k].ghLogin, u.tables.roster[k].ghId);
      }
    }
  }

  lemma FinishMembers(t: Tables, p: Plan, id: nat, before: MemberStatus)
    requires Ready(p) && Finish(t, p).Success? && id < |Finish(t, p).value.tables.roster|
    requires id < |t.roster| ==> before == t.roster[id].status
    ensures Finish(t, p).value.tables.roster[id].status == MemberAfter(Finish(t, p).value.events, id, before)
  {
    var u := Finish(t, p).value;
    if p.AddMembers? {
      RosterLists(t, p.corporateId, p.entries);
      ListedAfter(u.events, |t.roster|, id, before);
    } else if u.events != [] {
      assert u.events == [u.events[0]];
      OneMemberEvent(u.events[0], id, before);
    }
  }

  /** Where a row was at the start; one added since starts when it is added. */
  function StatusAt(t: Tables, id: nat): MemberStatus { if id < |t.roster| then t.roster[id].status else Listed }

  /** Over every run a roster row has the status the recorded events leave it with. */
  lemma {:induction false} MemberFollowsEvents(s: State, steps: seq<TxStep>, id: nat)
    requires id < |Run(s, steps).tables.roster|
    ensures var r := Run(s, steps); r.tables.roster[id].status == MemberAfter(Since(s, r), id, StatusAt(s.tables, id))
    decreases |steps|
  {
    if steps != [] {
      var mid, r := Run(s, steps[..|steps| - 1]), Run(s, steps);
      SinceOneMore(s, steps);
      RunKeepsRows(s, steps[..|steps| - 1]);
      if id < |mid.tables.roster| {
        MemberFollowsEvents(s, steps[..|steps| - 1], id);
      }
      MemberAfterConcat(Since(s, mid), Since(mid, r), id, StatusAt(s.tables, id));
      StepRecords(mid, steps[|steps| - 1]);
      if Since(mid, r) != [] || r.tables != mid.tables {
        FinishMembers(mid.tables, steps[|steps| - 1].plan, id, MemberAfter(Since(s, mid), id, StatusAt(s.tables, id)));
      }
    }
  }

  // ---- who is kept off ----

  /** The row is about the entry: the same company, and the account or the login. */
  predicate IsAbout(m: Member, corporateId: nat, login: Text, ghId: Option<int>)
  {
    m.corporateId == corporateId && ((ghId.Some? && m.ghId == ghId) || m.ghLogin == login)
  }

  /**
   After every run an entry is skipped as disputed exactly if some row about it was disputed, at the
   start or since, and the last event that names the row since did not revoke it.
   */
  lemma SkippedWhileDisputed(s: State, steps: seq<TxStep>, corporateId: nat, login: Text, ghId: Option<int>)
    ensures var r := Run(s, steps);
      IsDisputed(r.tables.roster, corporateId, login, ghId) <==>
      exists i :: 0 <= i < |r.tables.roster| && StaysDisputed(s, r, i, corporateId, login, ghId)
  {
    var r := Run(s, steps);
    forall i | 0 <= i < |r.tables.roster|
      ensures StaysDisputed(s, r, i, corporateId, login, ghId) <==>
        IsAbout(r.tables.roster[i], corporateId, login, ghId) && r.tables.roster[i].status == Disputed
    {
      MemberFollowsEvents(s, steps, i);
    }
    if IsDisputed(r.tables.roster, corporateId, login, ghId) {
      var m :| m in r.tables.roster && m.corporateId == corporateId && m.status == Disputed
        && ((ghId.Some? && m.ghId == ghId) || m.ghLogin == login);
      var i :| 0 <= i < |r.tables.roster| && r.tables.roster[i] == m;
      assert StaysDisputed(s, r, i, corporateId, login, ghId);
    }
    if i :| 0 <= i < |r.tables.roster| && StaysDisputed(s, r, i, corporateId, login, ghId) {
      assert r.tables.roster[i] in r.tables.roster;
    }
  }

  predicate StaysDisputed(s: State, r: State, i: nat, corporateId: nat, login: Text, ghId: Option<int>)
    requires i < |r.tables.roster|
  {
    IsAbout(r.tables.roster[i], corporateId, login, ghId) && MemberAfter(Since(s, r), i, StatusAt(s.tables, i)) == Disputed
  }

  /** One company in use, and its roster. */
  predicate RosterIs(s: State, roster: seq<Member>)
  {
    !s.moved && |s.tables.corporates| == 1 && s.tables.roster == roster
  }

  lemma AddsAgain(s: State, roster: seq<Member>)
    requires RosterIs(s, roster)
    ensures RosterIs(Step(s, AddRoster(0, [RosterEntry([97], Some(7))])),
      if IsDisputed(roster, 0, [97], Some(7)) then roster else roster + [Member(0, [97], Some(7), Listed)])
  {
    EntryOf(roster);
  }

  lemma StatusSteps(s: State)
    ensures RosterIs(s, [Member(0, [97], Some(7), Listed)]) ==>
      RosterIs(Step(s, DisputeMember(0)), [Member(0, [97], Some(7), Disputed)])
    ensures RosterIs(s, [Member(0, [97], Some(7), Disputed)]) ==>
      RosterIs(Step(s, RevokeMember(0)), [Member(0, [97], Some(7), Removed)])
  {
  }

  /** A company revokes the row its member disputed, and lists the member again without consent. */
  lemma RevokingLiftsDispute() returns (steps: seq<TxStep>, disputed: State, again: State)
    ensures disputed == Run(Initial(false), steps) && disputed.tables.roster == [Member(0, [97], Some(7), Disputed)]
    ensures var entry := [RosterEntry([97], Some(7))];
      Step(disputed, AddRoster(0, entry)).tables.roster == disputed.tables.roster &&
      again == Step(Step(disputed, RevokeMember(0)), AddRoster(0, entry)) &&
      again.tables.roster == [Member(0, [97], Some(7), Removed), Member(0, [97], Some(7), Listed)]
  {
    var listed;
    steps, listed := OneCompanyMember();
    StatusSteps(listed);
    steps := RunThenStep(false, steps, listed, DisputeMember(0));
    disputed := Run(Initial(false), steps);
    var one, gone := [Member(0, [97], Some(7), Disputed)], [Member(0, [97], Some(7), Removed)];
    assert RosterIs(disputed, one) && one[0] in one;
    AddsAgain(disputed, one);
    StatusSteps(disputed);
    AddsAgain(Step(disputed, RevokeMember(0)), gone);
    again := Step(Step(disputed, RevokeMember(0)), AddRoster(0, [RosterEntry([97], Some(7))]));
  }

  lemma EntryOf(roster: seq<Member>)
    ensures var e := RosterEntry([97], Some(7));
      AddEntries(roster, 0, [e]).0 ==
        if IsDisputed(roster, 0, [97], Some(7)) then roster else roster + [Member(0, [97], Some(7), Listed)]
  {
    assert Lower(Trim([97])) == [97];
    AddOneEntry(roster, 0, RosterEntry([97], Some(7)));
  }
}
