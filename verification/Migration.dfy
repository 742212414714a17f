/**
 The run of the mover itself: its reads, its sends in batches, the locked part, the compare and
 the switch, with other transactions and Legal taking steps between any two of its own, and any
 call failing. Everything it does is a run of the steps of `Move`.
 */
module Migration {
  import opened Wrappers
  import opened Text
  import opened Chain
  import opened Cla
  import opened Move
  import opened MoveProgress
  import opened Batching

  datatype Outcome = Moved | Already | DryRun | Failed

  const MAX_VERSIONS := 500
  const MAX_SIGNATURES := 2000
  const MAX_CORPORATES := 1000
  const MAX_ROSTER := 5000
  const MAX_WAIVERS := 2000
  const EVENTS_PER_BATCH := 2000

  /** A step somebody other than the mover takes. */
  predicate ByOthers(a: Action) { a.Local? || a.LegalWrites? }

  /** What other steps leave alone. */
  ghost predicate Meanwhile(before: System, after: System)
  {
    after.mover == before.mover && after.local.moved == before.local.moved && before.chain <= after.chain &&
    (HoldsLock(before.mover) ==> after.chain == before.chain)
  }

  lemma OthersKeep(h: Hash, project: Text, s: System, a: Action)
    requires ByOthers(a)
    ensures Meanwhile(s, Next(h, project, s, a))
  {
    if a.Local? && !(HoldsLock(s.mover) && NeedsLock(s.local, a.step)) {
      AppendAllGrows(h, project, s.chain, Recorded(s.local, a.step));
      StepRecords(s.local, a.step);
      if HoldsLock(s.mover) {
        NothingRecorded(s.local, a.step);
      }
    }
  }

  /** The rows read: all of a table, or those the later entries call for. */
  function IdsRead(t: Tables, later: Option<seq<Entry>>, table: Table): (ids: seq<nat>)
    ensures forall i :: i in ids ==> i < Count(t, table)
  {
    match later case None => AllIds(t, table) case Some(entries) => DeltaIds(t, entries, table)
  }

  function PartRead(t: Tables, later: Option<seq<Entry>>, table: Table): seq<Item>
  {
    RowItems(t, table, IdsRead(t, later, table))
  }

  /** The rows of each kind in the order they are sent, and how many a request takes. */
  function Parts(t: Tables, later: Option<seq<Entry>>): (parts: seq<(seq<Item>, nat)>)
    ensures |parts| == 5
  {
    [(PartRead(t, later, Versions), MAX_VERSIONS), (PartRead(t, later, Signatures), MAX_SIGNATURES),
     (PartRead(t, later, Corporates), MAX_CORPORATES), (PartRead(t, later, Roster), MAX_ROSTER),
     (PartRead(t, later, Waivers), MAX_WAIVERS)]
  }

  /** The parts from `n` on, then `rest`. */
  function Remaining(parts: seq<(seq<Item>, nat)>, n: nat, rest: seq<Item>): seq<Item>
    requires n <= |parts|
    decreases |parts| - n
  {
    if n == |parts| then rest else parts[n].0 + Remaining(parts, n + 1, rest)
  }

  lemma FiveParts(a: seq<Item>, b: seq<Item>, c: seq<Item>, d: seq<Item>, e: seq<Item>, rest: seq<Item>)
    ensures a + b + c + d + e + rest == a + (b + (c + (d + (e + rest))))
  {
  }

  lemma PartsAreRows(t: Tables, later: Option<seq<Entry>>, rest: seq<Item>)
    ensures Remaining(Parts(t, later), 0, rest) == RowsToSend(t, later) + rest
  {
    var p := Parts(t, later);
    assert Remaining(p, 5, rest) == rest;
    assert Remaining(p, 4, rest) == p[4].0 + rest;
    assert Remaining(p, 3, rest) == p[3].0 + (p[4].0 + rest);
    assert Remaining(p, 2, rest) == p[2].0 + (p[3].0 + (p[4].0 + rest));
    FiveParts(p[0].0, p[1].0, p[2].0, p[3].0, p[4].0, rest);
  }

  ghost predicate SendsNow(s: System, outbox: seq<Item>)
  {
    (s.mover.Sending? || s.mover.SendingDelta?) && s.mover.outbox == outbox
  }

  /** Still sending, with `rest` to go; or given up. */
  ghost predicate Onward(before: System, after: System, rest: seq<Item>, ok: bool)
    requires before.mover.Sending? || before.mover.SendingDelta?
  {
    after.local.moved == before.local.moved && before.chain <= after.chain &&
    (HoldsLock(before.mover) && ok ==> after.chain == before.chain) &&
    after.mover == if ok then before.mover.(outbox := rest) else Idle
  }

  lemma OnwardMeanwhile(s0: System, s: System, after: System, rest: seq<Item>)
    requires (s0.mover.Sending? || s0.mover.SendingDelta?) && Onward(s0, s, rest, true) && Meanwhile(s, after)
    ensures Onward(s0, after, rest, true)
  {
  }

  lemma OnwardFail(h: Hash, project: Text, s0: System, s: System, outbox: seq<Item>, rest: seq<Item>)
    requires (s0.mover.Sending? || s0.mover.SendingDelta?) && Onward(s0, s, outbox, true)
    ensures Onward(s0, Next(h, project, s, Fail), rest, false)
  {
  }

  lemma OnwardSend(h: Hash, project: Text, s0: System, s: System, item: Item, rest: seq<Item>)
    requires (s0.mover.Sending? || s0.mover.SendingDelta?) && Onward(s0, s, [item] + rest, true)
    ensures var r := Next(h, project, s, SendNext);
      Onward(s0, r, rest, !r.mover.Idle?)
  {
    assert ([item] + rest)[1..] == rest;
  }

  lemma OnwardTwice(s0: System, s: System, after: System, outbox: seq<Item>, rest: seq<Item>, ok: bool)
    requires (s0.mover.Sending? || s0.mover.SendingDelta?) && Onward(s0, s, outbox, true) && Onward(s, after, rest, ok)
    ensures Onward(s0, after, rest, ok)
  {
  }

  function RowsToSend(t: Tables, later: Option<seq<Entry>>): seq<Item>
  {
    match later case None => AllRows(t) case Some(entries) => DeltaRows(t, entries)
  }

  /** The first reads are done: everything read is to be sent. */
  ghost predicate HasRead(s: System)
  {
    s.mover.Sending? && s.mover.outbox == AllRows(s.mover.snap) + EntryItems(s.chain) && s.mover.upTo == |s.chain| - 1
  }

  class MoverRun {
    const h: Hash
    const project: Text
    const first: System
    /** What others do before each step of the mover, and which of its calls fail. */
    const meanwhile: nat -> seq<Action>
    const fails: nat -> bool
    const size: Item -> nat
    var clock: nat
    var sys: System
    ghost var trace: seq<Action>

    constructor (
      h: Hash, project: Text, sys: System, meanwhile: nat -> seq<Action>, fails: nat -> bool, size: Item -> nat)
      ensures Valid() && this.sys == sys && trace == []
      ensures this.h == h && this.project == project && this.first == sys
    {
      this.h, this.project, this.first, this.sys := h, project, sys, sys;
      this.meanwhile, this.fails, this.size := meanwhile, fails, size;
      this.clock, this.trace := 0, [];
    }

    /** What has happened is a run of the steps. */
    ghost predicate Valid()
      reads this
    {
      sys == RunMove(h, project, first, trace)
    }

    /** No call fails, Legal writes nothing of its own, and what it holds is a part of the local chain. */
    ghost predicate Calm()
      reads this
    {
      (forall n :: !fails(n)) && (forall n, i :: 0 <= i < |meanwhile(n)| ==> !meanwhile(n)[i].LegalWrites?) && Clean(h, project, sys)
    }

    method Do(a: Action)
      requires Valid()
      modifies this`sys, this`trace
      ensures Valid() && sys == Next(h, project, old(sys), a)
      ensures old(Calm()) && !a.LegalWrites? ==> Calm()
    {
      if Clean(h, project, sys) && !a.LegalWrites? {
        NextIsClean(h, project, sys, a);
      }
      ThenOne(h, project, first, trace, sys, a);
      sys, trace := Next(h, project, sys, a), trace + [a];
    }

    method GiveUp()
      requires Valid()
      modifies this`sys, this`trace
      ensures Valid() && sys == old(sys).(mover := Idle)
      ensures old(Calm()) ==> Calm()
    {
      Do(Fail);
    }

    method Enter()
      requires Valid() && sys.mover.Idle? && !sys.local.moved
      modifies this`sys, this`trace
      ensures Valid() && sys == old(sys).(mover := Reading(EMPTY, 0, |old(sys).local.log|))
      ensures old(Calm()) ==> Calm()
    {
      Do(Begin);
    }

    method TakeRow()
      requires Valid() && SendsNow(sys, []) && sys.mover.Sending?
      modifies this`sys, this`trace
      ensures Valid() && sys == old(sys).(mover := Locked(old(sys).mover.upTo, old(sys).mover.snap, old(sys).mover.begun))
      ensures old(Calm()) ==> Calm()
    {
      Do(Lock);
    }

    method ReadLater()
      requires Valid() && sys.mover.Locked?
      modifies this`sys, this`trace
      ensures Valid() && sys == old(sys).(mover := MoverReadsDelta(old(sys).chain, old(sys)))
      ensures old(Calm()) ==> Calm()
    {
      Do(ReadDelta);
    }

    method CompareHeads()
      requires Valid() && SendsNow(sys, []) && sys.mover.SendingDelta?
      modifies this`sys, this`trace
      ensures Valid() && sys == old(sys).(mover := MoverCompares(old(sys).chain, old(sys)))
      ensures old(Calm()) ==> Calm() && sys.mover.Agreed?
    {
      if Clean(h, project, sys) {
        CompareSucceeds(h, project, sys);
      }
      Do(Compare);
    }

    method SwitchOver()
      requires Valid() && sys.mover.Agreed?
      modifies this`sys, this`trace
      ensures Valid() && sys == old(sys).(local := old(sys).local.(moved := true), mover := Idle)
      ensures old(Calm()) ==> Calm()
    {
      Do(Switch);
    }

    /** Others take their steps; whether the mover's next call then fails. */
    method Pause() returns (failed: bool)
      requires Valid()
      modifies this
      ensures Valid() && Meanwhile(old(sys), sys)
      ensures old(Calm()) ==> Calm() && !failed
    {
      var others := meanwhile(clock);
      for i := 0 to |others|
        invariant Valid() && Meanwhile(old(sys), sys) && clock == old(clock) && (old(Calm()) ==> Calm())
      {
        if ByOthers(others[i]) {
          OthersKeep(h, project, sys, others[i]);
          Do(others[i]);
        }
      }
      failed := fails(clock);
      clock := clock + 1;
    }

    /** One request: its items arrive in turn, as far as Legal takes them. */
    method Post(batch: seq<Item>, ghost rest: seq<Item>) returns (ok: bool)
      requires Valid() && SendsNow(sys, batch + rest)
      modifies this
      ensures Valid() && Onward(old(sys), sys, rest, ok)
      ensures old(Calm()) ==> Calm() && ok
    {
      for i := 0 to |batch|
        invariant Valid() && Onward(old(sys), sys, batch[i..] + rest, true) && (old(Calm()) ==> Calm())
      {
        ghost var before := sys;
        var failed := Pause();
        OnwardMeanwhile(old(sys), before, sys, batch[i..] + rest);
        assert batch[i..] + rest == [batch[i]] + (batch[i + 1..] + rest);
        if failed {
          OnwardFail(h, project, old(sys), sys, batch[i..] + rest, rest);
          Do(Fail);
          return false;
        }
        OnwardSend(h, project, old(sys), sys, batch[i], batch[i + 1..] + rest);
        if Clean(h, project, sys) {
          NothingIsRefused(h, project, sys);
        }
        Do(SendNext);
        if sys.mover.Idle? {
          return false;
        }
      }
      assert batch[|batch|..] + rest == rest;
      ok := true;
    }

    /** One kind of rows, in batches Legal takes. */
    method SendPart(items: seq<Item>, max: nat, ghost rest: seq<Item>) returns (ok: bool)
      requires Valid() && SendsNow(sys, items + rest)
      modifies this
      ensures Valid() && Onward(old(sys), sys, rest, ok)
      ensures old(Calm()) ==> Calm() && ok
    {
      var batches := BySize(size, items, max);
      for k := 0 to |batches|
        invariant Valid() && Onward(old(sys), sys, Flatten(batches[k..]) + rest, true) && (old(Calm()) ==> Calm())
      {
        FlattenFirst(batches[k..]);
        assert batches[k..][1..] == batches[k + 1..];
        Assoc(batches[k], Flatten(batches[k + 1..]), rest);
        ghost var before := sys;
        ok := Post(batches[k], Flatten(batches[k + 1..]) + rest);
        OnwardTwice(old(sys), before, sys, Flatten(batches[k..]) + rest, Flatten(batches[k + 1..]) + rest, ok);
        if !ok {
          return;
        }
      }
      assert batches[|batches|..] == [] && Flatten(batches[|batches|..]) + rest == rest;
      ok := true;
    }

    method SendRows(parts: seq<(seq<Item>, nat)>, ghost tail: seq<Item>) returns (ok: bool)
      requires Valid() && SendsNow(sys, Remaining(parts, 0, tail))
      modifies this
      ensures Valid() && Onward(old(sys), sys, tail, ok)
      ensures old(Calm()) ==> Calm() && ok
    {
      for n := 0 to |parts|
        invariant Valid() && Onward(old(sys), sys, Remaining(parts, n, tail), true) && (old(Calm()) ==> Calm())
      {
        ghost var before := sys;
        ok := SendPart(parts[n].0, parts[n].1, Remaining(parts, n + 1, tail));
        OnwardTwice(old(sys), before, sys, Remaining(parts, n, tail), Remaining(parts, n + 1, tail), ok);
        if !ok {
          return;
        }
      }
      ok := true;
    }

    /** The rows, each kind after what it rests on, then the chain entries. */
    method Send(t: Tables, later: Option<seq<Entry>>, entries: seq<Entry>, ghost rest: seq<Item>) returns (ok: bool)
      requires Valid() && SendsNow(sys, RowsToSend(t, later) + (EntryItems(entries) + rest))
      modifies this
      ensures Valid() && Onward(old(sys), sys, rest, ok)
      ensures old(Calm()) ==> Calm() && ok
    {
      ghost var tail := EntryItems(entries) + rest;
      PartsAreRows(t, later, tail);
      ok := SendRows(Parts(t, later), tail);
      if ok {
        ghost var sent := sys;
        ok := SendPart(EntryItems(entries), EVENTS_PER_BATCH, rest);
        OnwardTwice(old(sys), sent, sys, tail, rest, ok);
      }
    }

    /** The tables in turn and the chain last, each as it stands when it is read. */
    method ReadEverything() returns (ok: bool)
      requires Valid() && sys.mover.Reading? && sys.mover.tables == 0
      modifies this
      ensures Valid() && sys.local.moved == old(sys.local.moved)
      ensures if ok then HasRead(sys) else sys.mover.Idle?
      ensures old(Calm()) ==> Calm() && ok
    {
      for n := 0 to 6
        invariant Valid() && sys.local.moved == old(sys.local.moved) && (old(Calm()) ==> Calm())
        invariant if n < 6 then sys.mover.Reading? && sys.mover.tables == n else HasRead(sys)
      {
        var failed := Pause();
        if failed {
          GiveUp();
          return false;
        }
        Do(ReadNext);
      }
      ok := true;
    }

    /** What was written meanwhile, sent while the row is held. */
    method SendLater() returns (ok: bool, sent: nat)
      requires Valid() && sys.mover.Locked? && 0 <= sys.mover.upTo + 1 <= |sys.chain|
      modifies this
      ensures Valid() && sys.local.moved == old(sys.local.moved)
      ensures if ok then SendsNow(sys, []) && sys.mover.SendingDelta? else sys.mover.Idle?
      ensures ok ==> sys.chain == old(sys.chain) && sent + old(sys.mover.upTo) + 1 == |sys.chain|
      ensures old(Calm()) ==> Calm() && ok
    {
      ReadLater();
      var t, later := sys.local.tables, Later(sys.chain, sys.mover.upTo);
      var current := [PutCurrent(t.currentIcla, t.currentCcla)];
      Assoc(DeltaRows(t, later), EntryItems(later), current);
      ghost var delta := sys;
      sent := |later|;
      ok := Send(t, Some(later), later, current);
      if ok {
        assert current + [] == current;
        ghost var before := sys;
        ok := Post(current, []);
        OnwardTwice(delta, before, sys, current, [], ok);
      }
    }

    /** Holding the row: what was written meanwhile, the compare and the switch. */
    method FinishLocked() returns (moved: bool, sent: nat)
      requires Valid() && sys.mover.Locked? && 0 <= sys.mover.upTo + 1 <= |sys.chain| && !sys.local.moved
      modifies this
      ensures Valid() && sys.mover.Idle? && sys.local.moved == moved
      ensures moved ==> sent + old(sys.mover.upTo) + 1 == |sys.chain|
      ensures old(Calm()) ==> Calm() && moved
    {
      var ok;
      ok, sent := SendLater();
      if !ok {
        return false, sent;
      }
      var failed := Pause();
      if failed {
        GiveUp();
        return false, sent;
      }
      CompareHeads();
      if sys.mover.Idle? {
        return false, sent;
      }
      failed := Pause();
      if failed {
        GiveUp();
        return false, sent;
      }
      SwitchOver();
      moved := true;
    }

    /** The history as it stands, read and sent while the project is in use; `stopped` says why it went no further. */
    method FirstPhase(dryRun: bool) returns (stopped: Option<Outcome>, events: nat)
      requires Valid() && sys.mover.Reading? && sys.mover.tables == 0
      modifies this
      ensures Valid() && sys.local.moved == old(sys.local.moved)
      ensures stopped.None? ==> !dryRun && SendsNow(sys, []) && sys.mover.Sending? && events == sys.mover.upTo + 1 <= |sys.chain|
      ensures stopped.Some? ==> sys.mover.Idle? && (stopped.value == Failed || (dryRun && stopped.value == DryRun))
      ensures old(Calm()) ==> Calm() && (dryRun || stopped.None?)
    {
      var ok := ReadEverything();
      if !ok {
        return Some(Failed), 0;
      }
      var snap, chain := sys.mover.snap, sys.chain;
      events := |chain|;
      if dryRun {
        GiveUp();
        return Some(DryRun), events;
      }
      var failed := Pause();
      if failed {
        GiveUp();
        return Some(Failed), events;
      }
      assert EntryItems(chain) + [] == EntryItems(chain);
      ok := Send(snap, None, chain, []);
      stopped := if ok then None else Some(Failed);
    }

    /**
     The whole move. It ends switched only by way of the compare, having sent every chain entry
     exactly once; stopped anywhere before, the project is still in use here and it can be run again.
     If no call fails and Legal writes nothing of its own it succeeds, whatever others do meanwhile.
     */
    method MoveClaToLegal(dryRun: bool) returns (outcome: Outcome, events: nat)
      requires Valid() && sys.mover.Idle?
      modifies this
      ensures Valid() && sys.mover.Idle?
      ensures outcome == Already <==> old(sys.local.moved)
      ensures sys.local.moved <==> outcome == Already || outcome == Moved
      ensures outcome == Moved ==> !dryRun && events == |sys.chain|
      ensures old(Calm()) && !old(sys.local.moved) && !dryRun ==> outcome == Moved
    {
      if sys.local.moved {
        return Already, 0;
      }
      Enter();
      var stopped;
      stopped, events := FirstPhase(dryRun);
      if stopped.Some? {
        return stopped.value, events;
      }
      var failed := Pause();
      if failed {
        GiveUp();
        return Failed, events;
      }
      TakeRow();
      var moved, sent := FinishLocked();
      outcome := if moved then Moved else Failed;
      events := events + sent;
    }
  }
}
