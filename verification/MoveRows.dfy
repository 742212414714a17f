/**
 Which rows Legal has been sent in their final status when the project is switched. The rows are
 read before the chain, and only rows named by later entries are read again, so this depends on
 what was written meanwhile; here is exactly how.
 */
module MoveRows {
  import opened Text
  import opened Chain
  import opened Cla
  import opened Runs
  import opened Move

  predicate Sent(rows: map<Key, Row>, t: Tables, k: Key)
    requires HasRow(t, k)
  {
    k in rows && rows[k] == RowAt(t, k)
  }

  /** Legal has every row as it is. */
  ghost predicate Complete(rows: map<Key, Row>, t: Tables)
  {
    forall k :: HasRow(t, k) ==> Sent(rows, t, k)
  }

  /** The row was read in the first phase, and has not changed since. */
  predicate Kept(snap: Tables, t: Tables, k: Key)
    requires HasRow(t, k)
  {
    HasRow(snap, k) && RowAt(snap, k) == RowAt(t, k)
  }

  // ---- what the outbox brings ----

  /** Every row in the outbox is a row of `t`, as it is there. */
  ghost predicate PutsFrom(t: Tables, outbox: seq<Item>)
  {
    forall i :: 0 <= i < |outbox| && outbox[i].Put? ==> HasRow(t, outbox[i].key) && outbox[i].row == RowAt(t, outbox[i].key)
  }

  ghost predicate Puts(outbox: seq<Item>, k: Key)
  {
    exists i :: 0 <= i < |outbox| && outbox[i].Put? && outbox[i].key == k
  }

  lemma PutsConcat(a: seq<Item>, b: seq<Item>, k: Key)
    ensures Puts(a + b, k) <==> Puts(a, k) || Puts(b, k)
  {
    if Puts(a, k) {
      var i :| 0 <= i < |a| && a[i].Put? && a[i].key == k;
      assert (a + b)[i] == a[i];
    }
    if Puts(b, k) {
      var i :| 0 <= i < |b| && b[i].Put? && b[i].key == k;
      assert (a + b)[|a| + i] == b[i];
    }
  }

  lemma PutsFromConcat(t: Tables, a: seq<Item>, b: seq<Item>)
    requires PutsFrom(t, a) && PutsFrom(t, b)
    ensures PutsFrom(t, a + b)
  {
  }

  lemma RowItemsPut(t: Tables, table: Table, ids: seq<nat>)
    requires forall i :: i in ids ==> i < Count(t, table)
    ensures PutsFrom(t, RowItems(t, table, ids))
    ensures forall k :: Puts(RowItems(t, table, ids), k) <==> k.table == table && k.id in ids
  {
    var items := RowItems(t, table, ids);
    forall k: Key | k.table == table && k.id in ids ensures Puts(items, k) {
      var j :| 0 <= j < |ids| && ids[j] == k.id;
      assert items[j].key == k;
    }
    forall i | 0 <= i < |items| ensures HasRow(t, items[i].key) && items[i].row == RowAt(t, items[i].key) && items[i].key.id in ids {
      assert ids[i] in ids;
    }
  }

  lemma FivePut(t: Tables, a: seq<nat>, b: seq<nat>, c: seq<nat>, d: seq<nat>, e: seq<nat>, k: Key)
    requires (forall i :: i in a ==> i < Count(t, Versions)) && (forall i :: i in b ==> i < Count(t, Signatures))
    requires (forall i :: i in c ==> i < Count(t, Corporates)) && (forall i :: i in d ==> i < Count(t, Roster))
    requires forall i :: i in e ==> i < Count(t, Waivers)
    ensures var items := RowItems(t, Versions, a) + RowItems(t, Signatures, b) + RowItems(t, Corporates, c) +
        RowItems(t, Roster, d) + RowItems(t, Waivers, e);
      PutsFrom(t, items) && (Puts(items, k) <==> k.id in match k.table
        case Versions => a case Signatures => b case Corporates => c case Roster => d case Waivers => e)
  {
    var v, s, o, r, w := RowItems(t, Versions, a), RowItems(t, Signatures, b), RowItems(t, Corporates, c),
      RowItems(t, Roster, d), RowItems(t, Waivers, e);
    RowItemsPut(t, Versions, a);
    RowItemsPut(t, Signatures, b);
    RowItemsPut(t, Corporates, c);
    RowItemsPut(t, Roster, d);
    RowItemsPut(t, Waivers, e);
    PutsConcat(v, s, k);
    PutsConcat(v + s, o, k);
    PutsConcat(v + s + o, r, k);
    PutsConcat(v + s + o + r, w, k);
  }

  lemma AllRowsPut(t: Tables, k: Key)
    ensures PutsFrom(t, AllRows(t)) && (Puts(AllRows(t), k) <==> HasRow(t, k))
  {
    FivePut(t, AllIds(t, Versions), AllIds(t, Signatures), AllIds(t, Corporates), AllIds(t, Roster), AllIds(t, Waivers), k);
  }

  lemma DeltaRowsPut(t: Tables, later: seq<Entry>, k: Key)
    ensures PutsFrom(t, DeltaRows(t, later)) && (Puts(DeltaRows(t, later), k) <==> HasRow(t, k) && InDelta(later, k))
  {
    FivePut(t, DeltaIds(t, later, Versions), DeltaIds(t, later, Signatures), DeltaIds(t, later, Corporates),
            DeltaIds(t, later, Roster), DeltaIds(t, later, Waivers), k);
  }

  // ---- what Legal has at each stage ----

  ghost predicate NoMoreThan(rows: map<Key, Row>, t: Tables)
  {
    forall k :: k in rows ==> HasRow(t, k)
  }

  /** While the tables are read: those read hold every row Legal was sent before. */
  ghost predicate ReadSoFar(rows: map<Key, Row>, snap: Tables, n: nat)
  {
    forall k :: k in rows && TableNumber(k.table) < n ==> HasRow(snap, k)
  }

  function TableNumber(table: Table): nat
  {
    match table case Versions => 0 case Signatures => 1 case Corporates => 2 case Roster => 3 case Waivers => 4
  }

  /** The first phase: each row read is at Legal as it was read, or on its way. */
  ghost predicate FirstPhase(rows: map<Key, Row>, snap: Tables, outbox: seq<Item>)
  {
    NoMoreThan(rows, snap) && PutsFrom(snap, outbox) &&
    forall k :: HasRow(snap, k) ==> Puts(outbox, k) || Sent(rows, snap, k)
  }

  /** The locked phase: rows named by a later entry as they are, the others as they were read. */
  ghost predicate LockedPhase(rows: map<Key, Row>, snap: Tables, t: Tables, later: seq<Entry>, outbox: seq<Item>)
  {
    PutsFrom(t, outbox) && (forall k :: Puts(outbox, k) ==> InDelta(later, k)) &&
    (forall k :: HasRow(t, k) && InDelta(later, k) ==> Puts(outbox, k) || Sent(rows, t, k)) &&
    (forall k :: HasRow(t, k) && !InDelta(later, k) ==> (k in rows <==> HasRow(snap, k))) &&
    (forall k :: HasRow(snap, k) && !InDelta(later, k) ==> Sent(rows, snap, k))
  }

  /** Rows are only added here. */
  ghost predicate Grows(snap: Tables, t: Tables)
  {
    forall k :: HasRow(snap, k) ==> HasRow(t, k)
  }

  ghost predicate Stage(s: System)
  {
    NoMoreThan(s.legal.rows, s.local.tables) &&
    match s.mover
    case Idle => true
    case Reading(snap, n, _) => Grows(snap, s.local.tables) && ReadSoFar(s.legal.rows, snap, n)
    case Sending(outbox, _, snap, _) => Grows(snap, s.local.tables) && FirstPhase(s.legal.rows, snap, outbox)
    case Locked(_, snap, _) => Grows(snap, s.local.tables) && FirstPhase(s.legal.rows, snap, [])
    case SendingDelta(outbox, upTo, snap, _) => LockedPhase(s.legal.rows, snap, s.local.tables, Later(s.chain, upTo), outbox)
    case Agreed(upTo, snap, _) => LockedPhase(s.legal.rows, snap, s.local.tables, Later(s.chain, upTo), [])
  }

  /** When the chains agree, what Legal has is complete exactly when every row no later entry names is as it was read. */
  lemma RowsArriveExactly(s: System)
    requires Stage(s) && s.mover.Agreed?
    ensures var t, later := s.local.tables, Later(s.chain, s.mover.upTo);
      Complete(s.legal.rows, t) <==> forall k :: HasRow(t, k) && !InDelta(later, k) ==> Kept(s.mover.snap, t, k)
  {
    var t, later, rows := s.local.tables, Later(s.chain, s.mover.upTo), s.legal.rows;
    forall k | HasRow(t, k) ensures Sent(rows, t, k) <==> InDelta(later, k) || Kept(s.mover.snap, t, k) {
    }
  }

  // ---- every step keeps the stage ----

  lemma CountsGrow(t: Tables, p: Plan)
    requires Ready(p) && Finish(t, p).Success?
    ensures Grows(t, Finish(t, p).value.tables)
  {
    if p.AddMembers? {
      AddEntriesAre(t.roster + [Enlisted(p.corporateId, p.entries[0])], p.corporateId, p.entries[1..]);
    }
  }

  lemma StepGrows(s: State, step: TxStep)
    ensures Grows(s.tables, Take(s, step).tables)
  {
    if step.Write? && step.plan in s.plans && Ready(step.plan) && Finish(s.tables, step.plan).Success? {
      CountsGrow(s.tables, step.plan);
    }
  }

  lemma LocalKeepsStage(h: Hash, project: Text, s: System, step: TxStep)
    requires Stage(s)
    ensures Stage(Next(h, project, s, Local(step)))
  {
    if !(HoldsLock(s.mover) && NeedsLock(s.local, step)) {
      StepGrows(s.local, step);
      if HoldsLock(s.mover) {
        NothingRecorded(s.local, step);
      }
    }
  }

  lemma FirstOutbox(rows: map<Key, Row>, snap: Tables, entries: seq<Entry>)
    requires NoMoreThan(rows, snap)
    ensures FirstPhase(rows, snap, AllRows(snap) + EntryItems(entries))
  {
    forall k ensures Puts(AllRows(snap) + EntryItems(entries), k) <==> HasRow(snap, k) {
      AllRowsPut(snap, k);
      PutsConcat(AllRows(snap), EntryItems(entries), k);
    }
    AllRowsPut(snap, Key(Versions, 0));
    PutsFromConcat(snap, AllRows(snap), EntryItems(entries));
  }

  lemma ReadKeepsStage(s: System)
    requires Stage(s) && s.mover.Reading?
    ensures Stage(s.(mover := MoverReads(s.chain, s)))
  {
    if s.mover.tables >= 5 {
      FirstOutbox(s.legal.rows, s.mover.snap, s.chain);
    }
  }

  lemma DeltaKeepsStage(s: System)
    requires Stage(s) && s.mover.Locked?
    ensures Stage(s.(mover := MoverReadsDelta(s.chain, s)))
  {
    var t, later := s.local.tables, Later(s.chain, s.mover.upTo);
    var rows, rest := DeltaRows(t, later), EntryItems(later) + [PutCurrent(t.currentIcla, t.currentCcla)];
    var outbox := DeltaRows(t, later) + EntryItems(later) + [PutCurrent(t.currentIcla, t.currentCcla)];
    Assoc(rows, EntryItems(later), [PutCurrent(t.currentIcla, t.currentCcla)]);
    forall k ensures Puts(outbox, k) <==> HasRow(t, k) && InDelta(later, k) {
      DeltaRowsPut(t, later, k);
      PutsConcat(rows, rest, k);
    }
    DeltaRowsPut(t, later, Key(Versions, 0));
    PutsFromConcat(t, rows, rest);
    DeltaStage(s.legal.rows, s.mover.snap, t, later, outbox);
  }

  lemma DeltaStage(rows: map<Key, Row>, snap: Tables, t: Tables, later: seq<Entry>, outbox: seq<Item>)
    requires FirstPhase(rows, snap, []) && Grows(snap, t) && PutsFrom(t, outbox)
    requires forall k :: Puts(outbox, k) <==> HasRow(t, k) && InDelta(later, k)
    ensures LockedPhase(rows, snap, t, later, outbox)
  {
  }

  lemma PutFirst(outbox: seq<Item>, k: Key)
    requires outbox != []
    ensures Puts(outbox, k) <==> (outbox[0].Put? && outbox[0].key == k) || Puts(outbox[1..], k)
  {
    PutsConcat([outbox[0]], outbox[1..], k);
    assert [outbox[0]] + outbox[1..] == outbox;
    if outbox[0].Put? && outbox[0].key == k {
      assert [outbox[0]][0].key == k;
    }
  }

  function RowsAfter(rows: map<Key, Row>, item: Item): map<Key, Row>
  {
    if item.Put? then rows[item.key := item.row] else rows
  }

  lemma ImportRows(h: Hash, project: Text, legal: Legal, item: Item)
    requires Import(h, project, legal, item).Some?
    ensures Import(h, project, legal, item).value.rows == RowsAfter(legal.rows, item)
  {
  }

  lemma FirstPhaseSends(rows: map<Key, Row>, snap: Tables, outbox: seq<Item>)
    requires FirstPhase(rows, snap, outbox) && outbox != []
    ensures FirstPhase(RowsAfter(rows, outbox[0]), snap, outbox[1..])
  {
    forall k ensures Puts(outbox, k) <==> (outbox[0].Put? && outbox[0].key == k) || Puts(outbox[1..], k) {
      PutFirst(outbox, k);
    }
  }

  lemma LockedPhaseSends(rows: map<Key, Row>, snap: Tables, t: Tables, later: seq<Entry>, outbox: seq<Item>)
    requires LockedPhase(rows, snap, t, later, outbox) && outbox != []
    ensures LockedPhase(RowsAfter(rows, outbox[0]), snap, t, later, outbox[1..])
  {
    forall k ensures Puts(outbox, k) <==> (outbox[0].Put? && outbox[0].key == k) || Puts(outbox[1..], k) {
      PutFirst(outbox, k);
    }
  }

  lemma SendKeepsStage(h: Hash, project: Text, s: System)
    requires Stage(s) && (s.mover.Sending? || s.mover.SendingDelta?) && s.mover.outbox != []
    ensures Stage(MoverSends(h, project, s))
  {
    var r := Import(h, project, s.legal, s.mover.outbox[0]);
    if r.Some? {
      ImportRows(h, project, s.legal, s.mover.outbox[0]);
      if s.mover.Sending? {
        FirstPhaseSends(s.legal.rows, s.mover.snap, s.mover.outbox);
      } else {
        LockedPhaseSends(s.legal.rows, s.mover.snap, s.local.tables, Later(s.chain, s.mover.upTo), s.mover.outbox);
      }
    }
  }

  lemma NextKeepsStage(h: Hash, project: Text, s: System, a: Action)
    requires Stage(s)
    ensures Stage(Next(h, project, s, a))
  {
    match a
    case Local(step) => LocalKeepsStage(h, project, s, step);
    case ReadNext => if s.mover.Reading? { ReadKeepsStage(s); }
    case SendNext =>
      if (s.mover.Sending? || s.mover.SendingDelta?) && s.mover.outbox != [] {
        SendKeepsStage(h, project, s);
      }
    case ReadDelta => if s.mover.Locked? { DeltaKeepsStage(s); }
    case _ =>
  }

  lemma {:induction false} RunKeepsStage(h: Hash, project: Text, flag: bool, actions: seq<Action>)
    ensures Stage(RunMove(h, project, Start(flag), actions))
    decreases |actions|
  {
    if actions != [] {
      RunKeepsStage(h, project, flag, actions[..|actions| - 1]);
      NextKeepsStage(h, project, RunMove(h, project, Start(flag), actions[..|actions| - 1]), actions[|actions| - 1]);
    }
  }
}
