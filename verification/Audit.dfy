/**
 What somebody holding only a chain can conclude about coverage: an accepted chain that ends in
 the project's head decides, for every account, what the project's own tables decide. The same
 holds of what Legal has once the project moved.
 */
module Audit {
  import opened Wrappers
  import opened Text
  import opened Chain
  import opened Cla
  import opened Runs
  import opened Replay
  import opened Ledger
  import opened Status
  import opened Move

  /** Coverage read off a chain, the approval setting being `flag` throughout. */
  function StatusFromChain(flag: bool, chain: seq<Entry>, account: int, ghLogin: Text): Option<ClaStatus>
  {
    match ReplayChain((c: nat) => flag, chain) case Some(t) => Some(LocalStatus(t, account, ghLogin)) case None => None
  }

  /** Over every run with the setting held fixed, any accepted chain with the project's head gives every account's status. */
  lemma ChainDecidesCoverage(
    h: Hash, project: Text, flag: bool, steps: seq<TxStep>, chain: seq<Entry>, account: int, ghLogin: Text)
    requires GoodHash(h) && Accepted(h, project, chain) && KeepsSetting(steps)
    requires Head(chain) == Head(ChainOf(h, project, Run(Initial(flag), steps).log))
    ensures StatusFromChain(flag, chain, account, ghLogin) == Some(LocalStatus(Run(Initial(flag), steps).tables, account, ghLogin))
  {
    HeadPinsTables(h, project, flag, steps, chain);
  }

  /** Each company that lists the account signed under the setting, or was decided on since. */
  ghost predicate SettingSettled(flag: bool, s: State, account: int, login: Text)
  {
    forall i :: 0 <= i < |s.tables.roster| && ListedUnder(s.tables, i, account, login) ==>
      StartedPending(s)(s.tables.roster[i].corporateId) == flag || DecidedIn(s.log, s.tables.roster[i].corporateId)
  }

  predicate ListedUnder(t: Tables, i: nat, account: int, login: Text)
    requires i < |t.roster|
  {
    t.roster[i].status == Listed && Names(t.roster[i].ghId, t.roster[i].ghLogin, account, login)
  }

  lemma SameStatus(t: Tables, u: Tables, account: int, ghLogin: Text)
    requires u.(corporates := t.corporates) == t && |u.corporates| == |t.corporates|
    requires forall i :: 0 <= i < |t.roster| && ListedUnder(t, i, account, Lower(ghLogin)) ==>
      t.roster[i].corporateId < |t.corporates| && u.corporates[t.roster[i].corporateId] == t.corporates[t.roster[i].corporateId]
    ensures LocalStatus(u, account, ghLogin) == LocalStatus(t, account, ghLogin)
  {
    var login := Lower(ghLogin);
    forall i | 0 <= i < |t.roster| ensures Covers(u, u.roster[i], account, login) == Covers(t, t.roster[i], account, login) {
      if ListedUnder(t, i, account, login) {
        assert u.corporates[t.roster[i].corporateId] == t.corporates[t.roster[i].corporateId];
      }
    }
    SameFirst(t, u, account, login, 0);
  }

  lemma {:induction false} SameFirst(t: Tables, u: Tables, account: int, login: Text, from: nat)
    requires u.roster == t.roster && from <= |t.roster|
    requires forall i :: 0 <= i < |t.roster| ==> Covers(u, u.roster[i], account, login) == Covers(t, t.roster[i], account, login)
    ensures FirstCovering(u, account, login, from) == FirstCovering(t, account, login, from)
    decreases |t.roster| - from
  {
    if from < |t.roster| {
      SameFirst(t, u, account, login, from + 1);
    }
  }

  /** Whatever happened to the setting, such a chain gives the status of every account whose companies it does not matter for. */
  lemma ChainDecidesSettled(
    h: Hash, project: Text, start: bool, steps: seq<TxStep>, chain: seq<Entry>, flag: bool, account: int, ghLogin: Text)
    requires GoodHash(h) && Accepted(h, project, chain)
    requires Head(chain) == Head(ChainOf(h, project, Run(Initial(start), steps).log))
    requires SettingSettled(flag, Run(Initial(start), steps), account, Lower(ghLogin))
    ensures StatusFromChain(flag, chain, account, ghLogin) == Some(LocalStatus(Run(Initial(start), steps).tables, account, ghLogin))
  {
    var s := Run(Initial(start), steps);
    HeadPinsTablesUpToStart(h, project, start, steps, chain, flag);
    RunKeepsInv(start, steps);
    var u := ReplayChain((c: nat) => flag, chain).value;
    forall i | 0 <= i < |s.tables.roster| && ListedUnder(s.tables, i, account, Lower(ghLogin))
      ensures s.tables.roster[i].corporateId < |s.tables.corporates| &&
        u.corporates[s.tables.roster[i].corporateId] == s.tables.corporates[s.tables.roster[i].corporateId]
    {
      assert References(s.tables);
    }
    SameStatus(s.tables, u, account, ghLogin);
  }

  ghost predicate NoneChangesSetting(actions: seq<Action>)
  {
    forall i :: 0 <= i < |actions| ==> !(actions[i].Local? && ChangesSetting(actions[i].step))
  }

  ghost predicate Replays(flag: bool, s: State)
  {
    SignedUnder(flag, s) && ReplayLog((c: nat) => flag, s.log) == Some(s.tables)
  }

  lemma StepReplays(flag: bool, s: State, step: TxStep)
    requires Replays(flag, s) && !ChangesSetting(step)
    ensures Replays(flag, Take(s, step))
  {
    StepSignsUnder(flag, s, step);
    if step.Write? && step.plan in s.plans && Ready(step.plan) && Written(s, step.plan).Success? {
      var pending := (c: nat) => flag;
      FinishReplays(pending, s.tables, step.plan);
      ApplyAllConcat(pending, EMPTY, s.log, Finish(s.tables, step.plan).value.events);
    }
  }

  lemma {:induction false} MoveReplays(h: Hash, project: Text, flag: bool, actions: seq<Action>)
    requires NoneChangesSetting(actions)
    ensures Replays(flag, RunMove(h, project, Start(flag), actions).local)
    decreases |actions|
  {
    if actions != [] {
      MoveReplays(h, project, flag, actions[..|actions| - 1]);
      var s := RunMove(h, project, Start(flag), actions[..|actions| - 1]);
      NextReplays(h, project, flag, s, actions[|actions| - 1]);
    }
  }

  lemma NextReplays(h: Hash, project: Text, flag: bool, s: System, a: Action)
    requires Replays(flag, s.local) && !(a.Local? && ChangesSetting(a.step))
    ensures Replays(flag, Next(h, project, s, a).local)
  {
    if a.Local? {
      StepReplays(flag, s.local, a.step);
    }
  }

  /**
   After the move, over every interleaving of writers, mover, failures and Legal: the part of
   Legal's chain that came from here gives every account the status the local tables gave.
   */
  lemma LegalDecidesCoverage(h: Hash, project: Text, flag: bool, actions: seq<Action>, account: int, ghLogin: Text)
    requires GoodHash(h) && NoneChangesSetting(actions) && RunMove(h, project, Start(flag), actions).local.moved
    ensures var s := RunMove(h, project, Start(flag), actions);
      |s.chain| <= |s.legal.chain| &&
      StatusFromChain(flag, s.legal.chain[..|s.chain|], account, ghLogin) == Some(LocalStatus(s.local.tables, account, ghLogin))
  {
    MoveReplays(h, project, flag, actions);
    EveryWriteIsInLegal(h, project, flag, actions, Read(SetApproval(flag)));
  }
}
