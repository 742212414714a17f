/**
 The move can always finish: as long as Legal writes no entry of its own, what it holds is a
 part of the local chain, no entry sent to it is refused, and the compare succeeds.
 */
module MoveProgress {
  import opened Wrappers
  import opened Text
  import opened Chain
  import opened Cla
  import opened Runs
  import opened Move

  /** The chain entries among what is still to be sent. */
  function EntriesOf(items: seq<Item>): seq<Entry>
  {
    if items == [] then [] else (if items[0].Send? then [items[0].entry] else []) + EntriesOf(items[1..])
  }

  lemma EntriesOfFirst(item: Item, items: seq<Item>)
    ensures EntriesOf([item] + items) == (if item.Send? then [item.entry] else []) + EntriesOf(items)
  {
    assert ([item] + items)[1..] == items;
  }

  lemma {:induction false} EntriesOfConcat(a: seq<Item>, b: seq<Item>)
    ensures EntriesOf(a + b) == EntriesOf(a) + EntriesOf(b)
  {
    if a == [] {
      assert a + b == b;
    } else {
      var tail := a[1..];
      assert a == [a[0]] + tail;
      Assoc([a[0]], tail, b);
      EntriesOfFirst(a[0], tail);
      EntriesOfFirst(a[0], tail + b);
      EntriesOfConcat(tail, b);
      Assoc(if a[0].Send? then [a[0].entry] else [], EntriesOf(tail), EntriesOf(b));
    }
  }

  lemma {:induction false} RowsHoldNoEntries(items: seq<Item>)
    requires forall i :: 0 <= i < |items| ==> !items[i].Send?
    ensures EntriesOf(items) == []
  {
    if items != [] {
      RowsHoldNoEntries(items[1..]);
    }
  }

  lemma {:induction false} EntryItemsHoldEntries(entries: seq<Entry>)
    ensures EntriesOf(EntryItems(entries)) == entries
  {
    if entries != [] {
      assert EntryItems(entries)[1..] == EntryItems(entries[1..]);
      EntryItemsHoldEntries(entries[1..]);
      assert entries == [entries[0]] + entries[1..];
    }
  }

  lemma AllRowsHoldNoEntries(t: Tables)
    ensures EntriesOf(AllRows(t)) == []
  {
    forall i | 0 <= i < |AllRows(t)| ensures !AllRows(t)[i].Send? {
    }
    RowsHoldNoEntries(AllRows(t));
  }

  lemma FirstOutboxEntries(t: Tables, chain: seq<Entry>)
    ensures EntriesOf(AllRows(t) + EntryItems(chain)) == chain
  {
    AllRowsHoldNoEntries(t);
    EntryItemsHoldEntries(chain);
    EntriesOfConcat(AllRows(t), EntryItems(chain));
  }

  lemma DeltaOutboxEntries(t: Tables, later: seq<Entry>, icla: Option<nat>, ccla: Option<nat>)
    ensures EntriesOf(DeltaRows(t, later) + EntryItems(later) + [PutCurrent(icla, ccla)]) == later
  {
    RowsHoldNoEntries(DeltaRows(t, later));
    RowsHoldNoEntries([PutCurrent(icla, ccla)]);
    EntryItemsHoldEntries(later);
    EntriesOfConcat(DeltaRows(t, later), EntryItems(later));
    EntriesOfConcat(DeltaRows(t, later) + EntryItems(later), [PutCurrent(icla, ccla)]);
  }

  // ---- nothing is refused ----

  /** The entries still to send run up to `end`, and Legal has those before them. */
  ghost predicate Pending(chain: seq<Entry>, legal: seq<Entry>, outbox: seq<Item>, end: nat)
  {
    var n := |EntriesOf(outbox)|;
    n <= end <= |chain| && end - n <= |legal| && EntriesOf(outbox) == chain[end - n..end]
  }

  /** What Legal holds is a part of `chain`, and so is what is on its way there. */
  ghost predicate CleanWith(chain: seq<Entry>, legal: seq<Entry>, m: Mover)
  {
    legal <= chain &&
    match m
    case Sending(outbox, upTo, _, _) => upTo >= -1 && Pending(chain, legal, outbox, upTo + 1)
    case Locked(upTo, _, _) => 0 <= upTo + 1 <= |chain| && upTo + 1 <= |legal|
    case SendingDelta(outbox, upTo, _, _) => Pending(chain, legal, outbox, |chain|)
    case _ => true
  }

  ghost predicate Clean(h: Hash, project: Text, s: System)
  {
    Accepted(h, project, s.chain) && CleanWith(s.chain, s.legal.chain, s.mover)
  }

  lemma PendingOnLongerChain(chain: seq<Entry>, longer: seq<Entry>, legal: seq<Entry>, outbox: seq<Item>, end: nat)
    requires Pending(chain, legal, outbox, end) && chain <= longer
    ensures Pending(longer, legal, outbox, end)
  {
    var n := |EntriesOf(outbox)|;
    assert longer[end - n..end] == chain[end - n..end];
  }

  lemma NextEntryIsTaken(h: Hash, project: Text, chain: seq<Entry>, legal: Legal, i: nat)
    requires Accepted(h, project, chain) && legal.chain <= chain && i < |chain| && i <= |legal.chain|
    ensures Import(h, project, legal, Send(chain[i])) ==
      Some(if i < |legal.chain| then legal else legal.(chain := chain[..i + 1]))
  {
    assert FaultAt(h, project, chain, i) == None;
    if i == |legal.chain| {
      assert legal.chain + [chain[i]] == chain[..i + 1];
    }
  }

  lemma SendKeepsPending(h: Hash, project: Text, chain: seq<Entry>, legal: Legal, outbox: seq<Item>, end: nat)
    requires Accepted(h, project, chain) && legal.chain <= chain && outbox != [] && Pending(chain, legal.chain, outbox, end)
    ensures var r := Import(h, project, legal, outbox[0]);
      r.Some? && r.value.chain <= chain && Pending(chain, r.value.chain, outbox[1..], end)
  {
    var n := |EntriesOf(outbox)|;
    if outbox[0].Send? {
      assert EntriesOf(outbox) == [outbox[0].entry] + EntriesOf(outbox[1..]);
      assert outbox[0].entry == chain[end - n];
      NextEntryIsTaken(h, project, chain, legal, end - n);
      assert EntriesOf(outbox[1..]) == chain[end - n + 1..end];
    } else {
      assert EntriesOf(outbox) == [] + EntriesOf(outbox[1..]) == EntriesOf(outbox[1..]);
    }
  }

  lemma SendIsClean(h: Hash, project: Text, chain: seq<Entry>, s: System)
    requires Accepted(h, project, chain) && CleanWith(chain, s.legal.chain, s.mover)
    requires (s.mover.Sending? || s.mover.SendingDelta?) && s.mover.outbox != []
    ensures var r := MoverSends(h, project, s);
      CleanWith(chain, r.legal.chain, r.mover) && r.local == s.local && r.mover == s.mover.(outbox := s.mover.outbox[1..])
  {
    SendKeepsPending(h, project, chain, s.legal, s.mover.outbox, if s.mover.Sending? then s.mover.upTo + 1 else |chain|);
  }

  /** While the mover is sending, none of its entries is refused. */
  lemma NothingIsRefused(h: Hash, project: Text, s: System)
    requires Clean(h, project, s) && (s.mover.Sending? || s.mover.SendingDelta?) && s.mover.outbox != []
    ensures var r := Next(h, project, s, SendNext);
      Clean(h, project, r) && r.local == s.local && r.chain == s.chain && r.mover == s.mover.(outbox := s.mover.outbox[1..])
  {
    SendIsClean(h, project, s.chain, s);
  }

  lemma ReadKeepsClean(chain: seq<Entry>, s: System)
    requires CleanWith(chain, s.legal.chain, s.mover) && s.mover.Reading?
    ensures CleanWith(chain, s.legal.chain, MoverReads(chain, s))
  {
    FirstOutboxEntries(s.mover.snap, chain);
    assert chain[0..|chain|] == chain;
  }

  lemma DeltaKeepsClean(chain: seq<Entry>, s: System)
    requires CleanWith(chain, s.legal.chain, s.mover) && s.mover.Locked?
    ensures CleanWith(chain, s.legal.chain, MoverReadsDelta(chain, s))
  {
    var t := s.local.tables;
    DeltaOutboxEntries(t, Later(chain, s.mover.upTo), t.currentIcla, t.currentCcla);
  }

  lemma NothingLeft(chain: seq<Entry>, legal: seq<Entry>, m: Mover)
    requires CleanWith(chain, legal, m) && (m.Sending? || m.SendingDelta?) && m.outbox == []
    ensures m.Sending? ==> CleanWith(chain, legal, Locked(m.upTo, m.snap, m.begun))
    ensures m.SendingDelta? ==> legal == chain
  {
    assert EntriesOf(m.outbox) == [];
  }

  /** Once the later entries are sent, Legal's chain is the local one, and the compare finds so. */
  lemma CompareSucceeds(h: Hash, project: Text, s: System)
    requires Clean(h, project, s) && s.mover.SendingDelta? && s.mover.outbox == []
    ensures s.legal.chain == s.chain
    ensures Next(h, project, s, Compare) == s.(mover := Agreed(s.mover.upTo, s.mover.snap, s.mover.begun))
  {
    NothingLeft(s.chain, s.legal.chain, s.mover);
  }

  lemma WriteKeepsClean(chain: seq<Entry>, longer: seq<Entry>, legal: seq<Entry>, m: Mover)
    requires CleanWith(chain, legal, m) && chain <= longer && (HoldsLock(m) ==> longer == chain)
    ensures CleanWith(longer, legal, m)
  {
    if m.Sending? {
      PendingOnLongerChain(chain, longer, legal, m.outbox, m.upTo + 1);
    }
  }

  lemma LocalIsClean(h: Hash, project: Text, s: System, step: TxStep)
    requires Clean(h, project, s)
    ensures Clean(h, project, Next(h, project, s, Local(step)))
  {
    if !(HoldsLock(s.mover) && NeedsLock(s.local, step)) {
      var events := Recorded(s.local, step);
      AppendAllGrows(h, project, s.chain, events);
      AppendAllKeepsAccepted(h, project, s.chain, events);
      if HoldsLock(s.mover) {
        NothingRecorded(s.local, step);
      }
      WriteKeepsClean(s.chain, AppendAll(h, project, s.chain, events), s.legal.chain, s.mover);
    }
  }

  lemma NextIsClean(h: Hash, project: Text, s: System, a: Action)
    requires Clean(h, project, s) && !a.LegalWrites?
    ensures Clean(h, project, Next(h, project, s, a))
  {
    match a
    case Local(step) => LocalIsClean(h, project, s, step);
    case ReadNext => if s.mover.Reading? { ReadKeepsClean(s.chain, s); }
    case ReadDelta => if s.mover.Locked? { DeltaKeepsClean(s.chain, s); }
    case Lock => if s.mover.Sending? && s.mover.outbox == [] { NothingLeft(s.chain, s.legal.chain, s.mover); }
    case SendNext =>
      if (s.mover.Sending? || s.mover.SendingDelta?) && s.mover.outbox != [] {
        NothingIsRefused(h, project, s);
      }
    case _ =>
  }

  /**
   Over every interleaving in which Legal writes nothing of its own, with failures at any step:
   what Legal holds is a part of the local chain. A refused entry or a failed compare is Legal's doing.
   */
  lemma {:induction false} RunIsClean(h: Hash, project: Text, flag: bool, actions: seq<Action>)
    requires forall i :: 0 <= i < |actions| ==> !actions[i].LegalWrites?
    ensures Clean(h, project, RunMove(h, project, Start(flag), actions))
    decreases |actions|
  {
    if actions != [] {
      RunIsClean(h, project, flag, actions[..|actions| - 1]);
      NextIsClean(h, project, RunMove(h, project, Start(flag), actions[..|actions| - 1]), actions[|actions| - 1]);
    }
  }

  // ---- a move that nothing disturbs finishes, whatever happened before ----

  lemma {:induction false} MoveConcat(h: Hash, project: Text, s: System, a: seq<Action>, b: seq<Action>)
    ensures RunMove(h, project, s, a + b) == RunMove(h, project, RunMove(h, project, s, a), b)
    decreases |b|
  {
    if b == [] {
      assert a + b == a;
    } else {
      assert (a + b)[..|a + b| - 1] == a + b[..|b| - 1];
      MoveConcat(h, project, s, a, b[..|b| - 1]);
    }
  }

  lemma MoveOne(h: Hash, project: Text, s: System, a: Action)
    ensures RunMove(h, project, s, [a]) == Next(h, project, s, a)
  {
    assert [a][..0] == [];
  }

  /** Sending until nothing is left. */
  lemma {:induction false} SendAll(h: Hash, project: Text, s: System) returns (actions: seq<Action>, r: System)
    requires Clean(h, project, s) && (s.mover.Sending? || s.mover.SendingDelta?)
    ensures r == RunMove(h, project, s, actions) && Clean(h, project, r)
    ensures r.local == s.local && r.chain == s.chain && r.mover == s.mover.(outbox := [])
    decreases |s.mover.outbox|
  {
    if s.mover.outbox == [] {
      actions, r := [], s;
    } else {
      NothingIsRefused(h, project, s);
      var next := Next(h, project, s, SendNext);
      var rest;
      rest, r := SendAll(h, project, next);
      actions := [SendNext] + rest;
      MoveOne(h, project, s, SendNext);
      MoveConcat(h, project, s, [SendNext], rest);
    }
  }

  lemma ThenOne(h: Hash, project: Text, s: System, actions: seq<Action>, mid: System, a: Action)
    requires mid == RunMove(h, project, s, actions)
    ensures RunMove(h, project, s, actions + [a]) == Next(h, project, mid, a)
  {
    MoveOne(h, project, mid, a);
    MoveConcat(h, project, s, actions, [a]);
  }

  lemma {:induction false} ReadTables(h: Hash, project: Text, s: System) returns (actions: seq<Action>, r: System)
    requires Clean(h, project, s) && s.mover.Reading?
    ensures r == RunMove(h, project, s, actions) && Clean(h, project, r) && r.local == s.local && r.mover.Sending?
    ensures r.chain == s.chain && r.mover.upTo == |s.chain| - 1 && r.mover.begun == s.mover.begun
    ensures forall i :: 0 <= i < |actions| ==> !actions[i].LegalWrites?
    ensures s.mover.tables > 1 ==> r.mover.snap.signatures == s.mover.snap.signatures
    decreases 6 - s.mover.tables
  {
    NextIsClean(h, project, s, ReadNext);
    var next := Next(h, project, s, ReadNext);
    MoveOne(h, project, s, ReadNext);
    if s.mover.tables < 5 {
      var rest;
      rest, r := ReadTables(h, project, next);
      actions := [ReadNext] + rest;
      MoveConcat(h, project, s, [ReadNext], rest);
    } else {
      actions, r := [ReadNext], next;
    }
  }

  /** From the end of the first reads to the lock. */
  lemma SendThenLock(h: Hash, project: Text, s: System) returns (actions: seq<Action>, r: System)
    requires Clean(h, project, s) && s.mover.Sending?
    ensures r == RunMove(h, project, s, actions) && Clean(h, project, r)
    ensures r.local == s.local && r.chain == s.chain && r.mover == Locked(s.mover.upTo, s.mover.snap, s.mover.begun)
  {
    var sends, sent := SendAll(h, project, s);
    NextIsClean(h, project, sent, Lock);
    ThenOne(h, project, s, sends, sent, Lock);
    actions, r := sends + [Lock], Next(h, project, sent, Lock);
  }

  /** From the lock to the agreement. */
  lemma DeltaThenAgree(h: Hash, project: Text, s: System) returns (actions: seq<Action>, r: System)
    requires Clean(h, project, s) && s.mover.Locked?
    ensures r == RunMove(h, project, s, actions)
    ensures r.local == s.local && r.chain == s.chain && r.mover == Agreed(s.mover.upTo, s.mover.snap, s.mover.begun)
  {
    NextIsClean(h, project, s, ReadDelta);
    var reading := Next(h, project, s, ReadDelta);
    MoveOne(h, project, s, ReadDelta);
    var sends, sent := SendAll(h, project, reading);
    MoveConcat(h, project, s, [ReadDelta], sends);
    CompareSucceeds(h, project, sent);
    ThenOne(h, project, s, [ReadDelta] + sends, sent, Compare);
    actions, r := [ReadDelta] + sends + [Compare], Next(h, project, sent, Compare);
  }

  /** From the end of the first reads to the agreement, which only the switch can follow. */
  lemma FinishFrom(h: Hash, project: Text, s: System) returns (actions: seq<Action>, agreed: System)
    requires Clean(h, project, s) && s.mover.Sending?
    ensures agreed == RunMove(h, project, s, actions) && agreed.local == s.local && agreed.chain == s.chain
    ensures agreed.mover == Agreed(s.mover.upTo, s.mover.snap, s.mover.begun)
    ensures RunMove(h, project, s, actions + [Switch]).local == s.local.(moved := true)
  {
    var first, locked := SendThenLock(h, project, s);
    var second;
    second, agreed := DeltaThenAgree(h, project, locked);
    actions := first + second;
    MoveConcat(h, project, s, first, second);
    ThenSwitch(h, project, s, actions, agreed);
  }

  lemma ThenSwitch(h: Hash, project: Text, s: System, actions: seq<Action>, agreed: System)
    requires agreed == RunMove(h, project, s, actions) && agreed.mover.Agreed?
    ensures RunMove(h, project, s, actions + [Switch]).local == agreed.local.(moved := true)
  {
    ThenOne(h, project, s, actions, agreed, Switch);
  }

  /**
   Running the move again is always enough: from any state reached without Legal writing, with the
   mover idle, a run of it that nothing disturbs switches the project, its records untouched.
   */
  lemma MoveCanFinish(h: Hash, project: Text, flag: bool, before: seq<Action>) returns (actions: seq<Action>)
    requires forall i :: 0 <= i < |before| ==> !before[i].LegalWrites?
    requires var s := RunMove(h, project, Start(flag), before); s.mover.Idle? && !s.local.moved
    ensures var s := RunMove(h, project, Start(flag), before);
      RunMove(h, project, Start(flag), before + actions).local == s.local.(moved := true)
  {
    var s := RunMove(h, project, Start(flag), before);
    RunIsClean(h, project, flag, before);
    var begun := Next(h, project, s, Begin);
    MoveOne(h, project, s, Begin);
    var readings, read := ReadTables(h, project, begun);
    var rest, agreed := FinishFrom(h, project, read);
    actions := [Begin] + readings + (rest + [Switch]);
    MoveConcat(h, project, s, [Begin], readings);
    MoveConcat(h, project, s, [Begin] + readings, rest + [Switch]);
    MoveConcat(h, project, Start(flag), before, actions);
  }
}
