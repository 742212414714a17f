/**
 Moving a project's records to Legal, as steps that interleave: local transactions, the mover's
 reads and sends, its locked part, failures, and Legal itself writing. A batch of rows or
 entries is its items sent one after the other, so a failure may fall inside a batch.
 */
module Move {
  import opened Wrappers
  import opened Text
  import opened Chain
  import opened Cla
  import opened Runs
  import opened Ledger

  // ---- rows, and what is sent ----

  datatype Table = Versions | Signatures | Corporates | Roster | Waivers

  datatype Key = Key(table: Table, id: nat)

  datatype Row =
    | VersionRow(version: Version)
    | SignatureRow(signature: Signature)
    | CorporateRow(corporate: Corporate)
    | MemberRow(member: Member)
    | WaiverRow(waiver: Waiver)

  function Count(t: Tables, table: Table): nat
  {
    match table
    case Versions => |t.versions|
    case Signatures => |t.signatures|
    case Corporates => |t.corporates|
    case Roster => |t.roster|
    case Waivers => |t.waivers|
  }

  function RowAt(t: Tables, k: Key): Row
    requires k.id < Count(t, k.table)
  {
    match k.table
    case Versions => VersionRow(t.versions[k.id])
    case Signatures => SignatureRow(t.signatures[k.id])
    case Corporates => CorporateRow(t.corporates[k.id])
    case Roster => MemberRow(t.roster[k.id])
    case Waivers => WaiverRow(t.waivers[k.id])
  }

  predicate HasRow(t: Tables, k: Key) { k.id < Count(t, k.table) }

  datatype Item =
    | Put(key: Key, row: Row)
    | Send(entry: Entry)
    | PutCurrent(icla: Option<nat>, ccla: Option<nat>)

  /** Rows of one table as they are sent. */
  function RowItems(t: Tables, table: Table, ids: seq<nat>): (items: seq<Item>)
    requires forall i :: i in ids ==> i < Count(t, table)
    ensures |items| == |ids|
  {
    seq(|ids|, j requires 0 <= j < |ids| => assert ids[j] in ids; Put(Key(table, ids[j]), RowAt(t, Key(table, ids[j]))))
  }

  function EntryItems(entries: seq<Entry>): (items: seq<Item>)
    ensures |items| == |entries|
  {
    seq(|entries|, j requires 0 <= j < |entries| => Send(entries[j]))
  }

  function AllIds(t: Tables, table: Table): (ids: seq<nat>)
    ensures forall i: nat :: i in ids <==> i < Count(t, table)
  {
    Select(Count(t, table), (i: nat) => true)
  }

  /** Each kind after what it rests on. */
  function AllRows(t: Tables): seq<Item>
  {
    RowItems(t, Versions, AllIds(t, Versions)) + RowItems(t, Signatures, AllIds(t, Signatures)) +
    RowItems(t, Corporates, AllIds(t, Corporates)) + RowItems(t, Roster, AllIds(t, Roster)) +
    RowItems(t, Waivers, AllIds(t, Waivers))
  }

  function LinkTo(l: Links, table: Table): Option<nat>
  {
    match table
    case Versions => l.version
    case Signatures => l.signature
    case Corporates => l.corporate
    case Roster => l.member
    case Waivers => l.waiver
  }

  predicate Linked(entries: seq<Entry>, k: Key)
  {
    exists j :: 0 <= j < |entries| && LinkTo(entries[j].links, k.table) == Some(k.id)
  }

  predicate SomeResignSet(entries: seq<Entry>)
  {
    exists j :: 0 <= j < |entries| && entries[j].kind == DOC_RESIGN_SET
  }

  /** The rows read again under the lock: those the later entries name, and every version after a re-sign change. */
  predicate InDelta(later: seq<Entry>, k: Key)
  {
    Linked(later, k) || (k.table == Versions && SomeResignSet(later))
  }

  function DeltaIds(t: Tables, later: seq<Entry>, table: Table): (ids: seq<nat>)
    ensures forall i: nat :: i in ids <==> i < Count(t, table) && InDelta(later, Key(table, i))
  {
    Select(Count(t, table), (i: nat) => InDelta(later, Key(table, i)))
  }

  function DeltaRows(t: Tables, later: seq<Entry>): seq<Item>
  {
    RowItems(t, Versions, DeltaIds(t, later, Versions)) + RowItems(t, Signatures, DeltaIds(t, later, Signatures)) +
    RowItems(t, Corporates, DeltaIds(t, later, Corporates)) + RowItems(t, Roster, DeltaIds(t, later, Roster)) +
    RowItems(t, Waivers, DeltaIds(t, later, Waivers))
  }

  // ---- Legal ----

  /** Its chain, and each row as it was last sent. */
  datatype Legal = Legal(chain: seq<Entry>, rows: map<Key, Row>, icla: Option<nat>, ccla: Option<nat>)

  predicate Holds(chain: seq<Entry>, e: Entry)
  {
    0 <= e.seqNo < |chain| && chain[e.seqNo].entryHash == e.entryHash
  }

  /** An entry it holds is ignored, one that re-hashes and extends its chain is taken, any other is refused. */
  function Import(h: Hash, project: Text, legal: Legal, item: Item): Option<Legal>
  {
    match item
    case Put(key, row) => Some(legal.(rows := legal.rows[key := row]))
    case PutCurrent(icla, ccla) => Some(legal.(icla := icla, ccla := ccla))
    case Send(e) =>
      if Holds(legal.chain, e) then Some(legal)
      else if Extends(h, project, legal.chain, e) then Some(legal.(chain := legal.chain + [e]))
      else None
  }

  // ---- the system ----

  /**
   Where the mover is. `snap` holds the rows as they were read, `begun` is how much was recorded
   when it began to read; neither steers a step.
   */
  datatype Mover =
    | Idle
    | Reading(snap: Tables, tables: nat, begun: nat)
    | Sending(outbox: seq<Item>, upTo: int, snap: Tables, begun: nat)
    | Locked(upTo: int, snap: Tables, begun: nat)
    | SendingDelta(outbox: seq<Item>, upTo: int, snap: Tables, begun: nat)
    | Agreed(upTo: int, snap: Tables, begun: nat)

  predicate HoldsLock(m: Mover) { m.Locked? || m.SendingDelta? || m.Agreed? }

  /** `chain` is the stored chain of the local project. */
  datatype System = System(local: State, chain: seq<Entry>, legal: Legal, mover: Mover)

  datatype Action =
    | Local(step: TxStep)
    | LegalWrites(entry: Entry)
    | Begin
    | ReadNext
    | SendNext
    | Lock
    | ReadDelta
    | Compare
    | Switch
    | Fail

  function Start(requiresApproval: bool): System
  {
    System(Initial(requiresApproval), [], Legal([], map[], None, None), Idle)
  }

  function AppendAll(h: Hash, project: Text, chain: seq<Entry>, events: seq<Event>): seq<Entry>
  {
    if events == [] then chain
    else AppendEvent(h, project, AppendAll(h, project, chain, events[..|events| - 1]), events[|events| - 1])
  }

  /** What a local step records. */
  function Recorded(s: State, step: TxStep): seq<Event>
  {
    var r := Take(s, step);
    if |s.log| <= |r.log| then r.log[|s.log|..] else []
  }

  function AfterLocal(h: Hash, project: Text, s: System, step: TxStep): System
  {
    s.(local := Take(s.local, step), chain := AppendAll(h, project, s.chain, Recorded(s.local, step)))
  }

  /** The step records something, so it needs the project's row. */
  predicate NeedsLock(s: State, step: TxStep)
  {
    step.Write? && step.plan in s.plans && Ready(step.plan) &&
    var r := Finish(s.tables, step.plan);
    r.Success? && r.value.events != []
  }

  function ReadTable(snap: Tables, t: Tables, n: nat): Tables
  {
    if n == 0 then snap.(versions := t.versions)
    else if n == 1 then snap.(signatures := t.signatures)
    else if n == 2 then snap.(corporates := t.corporates)
    else if n == 3 then snap.(roster := t.roster)
    else snap.(waivers := t.waivers)
  }

  function Later(chain: seq<Entry>, upTo: int): seq<Entry>
  {
    if 0 <= upTo + 1 <= |chain| then chain[upTo + 1..] else []
  }

  function MoverReads(chain: seq<Entry>, s: System): Mover
    requires s.mover.Reading?
  {
    var m := s.mover;
    if m.tables < 5 then Reading(ReadTable(m.snap, s.local.tables, m.tables), m.tables + 1, m.begun)
    else Sending(AllRows(m.snap) + EntryItems(chain), |chain| - 1, m.snap, m.begun)
  }

  function MoverSends(h: Hash, project: Text, s: System): System
    requires (s.mover.Sending? || s.mover.SendingDelta?) && s.mover.outbox != []
  {
    match Import(h, project, s.legal, s.mover.outbox[0])
    case None => s.(mover := Idle)
    case Some(legal) => s.(legal := legal, mover := s.mover.(outbox := s.mover.outbox[1..]))
  }

  function MoverReadsDelta(chain: seq<Entry>, s: System): Mover
    requires s.mover.Locked?
  {
    var m, t, later := s.mover, s.local.tables, Later(chain, s.mover.upTo);
    SendingDelta(DeltaRows(t, later) + EntryItems(later) + [PutCurrent(t.currentIcla, t.currentCcla)], m.upTo, m.snap, m.begun)
  }

  function MoverCompares(chain: seq<Entry>, s: System): Mover
    requires s.mover.SendingDelta?
  {
    var there := s.legal.chain;
    if Head(chain) == Head(there) && |chain| == |there| then Agreed(s.mover.upTo, s.mover.snap, s.mover.begun) else Idle
  }

  /** One step; where it cannot be taken, nothing changes. A write that needs the row waits while the mover holds it. */
  function Next(h: Hash, project: Text, s: System, a: Action): System
  {
    match a
    case Local(step) => if HoldsLock(s.mover) && NeedsLock(s.local, step) then s else AfterLocal(h, project, s, step)
    case LegalWrites(e) =>
      if Extends(h, project, s.legal.chain, e) then s.(legal := s.legal.(chain := s.legal.chain + [e])) else s
    case Begin => if s.mover.Idle? && !s.local.moved then s.(mover := Reading(EMPTY, 0, |s.local.log|)) else s
    case ReadNext => if s.mover.Reading? then s.(mover := MoverReads(s.chain, s)) else s
    case SendNext =>
      if (s.mover.Sending? || s.mover.SendingDelta?) && s.mover.outbox != [] then MoverSends(h, project, s) else s
    case Lock =>
      if s.mover.Sending? && s.mover.outbox == [] then s.(mover := Locked(s.mover.upTo, s.mover.snap, s.mover.begun)) else s
    case ReadDelta => if s.mover.Locked? then s.(mover := MoverReadsDelta(s.chain, s)) else s
    case Compare =>
      if s.mover.SendingDelta? && s.mover.outbox == [] then s.(mover := MoverCompares(s.chain, s)) else s
    case Switch => if s.mover.Agreed? then s.(local := s.local.(moved := true), mover := Idle) else s
    case Fail => s.(mover := Idle)
  }

  function RunMove(h: Hash, project: Text, s: System, actions: seq<Action>): System
  {
    if actions == [] then s
    else Next(h, project, RunMove(h, project, s, actions[..|actions| - 1]), actions[|actions| - 1])
  }

  // ---- the stored chain ----

  lemma {:induction false} AppendAllIsChainOf(h: Hash, project: Text, log: seq<Event>, more: seq<Event>)
    ensures AppendAll(h, project, ChainOf(h, project, log), more) == ChainOf(h, project, log + more)
    decreases |more|
  {
    if more == [] {
      assert log + more == log;
    } else {
      assert (log + more)[..|log + more| - 1] == log + more[..|more| - 1];
      AppendAllIsChainOf(h, project, log, more[..|more| - 1]);
    }
  }

  lemma AppendEventGrows(h: Hash, project: Text, chain: seq<Entry>, e: Event)
    ensures chain <= AppendEvent(h, project, chain, e)
  {
  }

  lemma {:induction false} AppendAllGrows(h: Hash, project: Text, chain: seq<Entry>, events: seq<Event>)
    ensures chain <= AppendAll(h, project, chain, events)
    decreases |events|
  {
    if events != [] {
      AppendAllGrows(h, project, chain, events[..|events| - 1]);
      AppendEventGrows(h, project, AppendAll(h, project, chain, events[..|events| - 1]), events[|events| - 1]);
    }
  }

  lemma {:induction false} AppendAllKeepsAccepted(h: Hash, project: Text, chain: seq<Entry>, events: seq<Event>)
    requires Accepted(h, project, chain)
    ensures Accepted(h, project, AppendAll(h, project, chain, events))
    decreases |events|
  {
    if events != [] {
      var init, e := AppendAll(h, project, chain, events[..|events| - 1]), events[|events| - 1];
      AppendAllKeepsAccepted(h, project, chain, events[..|events| - 1]);
      EventRoundTrip(e);
      AppendKeepsAccepted(h, project, init, KindText(KindOf(e)), Encode(e), LinksOf(e));
    }
  }

  lemma StepRecords(s: State, step: TxStep)
    ensures Take(s, step).log == s.log + Recorded(s, step) && Take(s, step).moved == s.moved
  {
  }

  /** The stored chain is always the chain of what was recorded. */
  lemma {:induction false} StoredChain(h: Hash, project: Text, flag: bool, actions: seq<Action>)
    ensures var s := RunMove(h, project, Start(flag), actions); s.chain == ChainOf(h, project, s.local.log)
    decreases |actions|
  {
    if actions != [] {
      var before := RunMove(h, project, Start(flag), actions[..|actions| - 1]);
      StoredChain(h, project, flag, actions[..|actions| - 1]);
      StoredChainStep(h, project, before, actions[|actions| - 1]);
    }
  }

  lemma StoredChainStep(h: Hash, project: Text, s: System, a: Action)
    requires s.chain == ChainOf(h, project, s.local.log)
    ensures var r := Next(h, project, s, a); r.chain == ChainOf(h, project, r.local.log)
  {
    if a.Local? {
      StepRecords(s.local, a.step);
      AppendAllIsChainOf(h, project, s.local.log, Recorded(s.local, a.step));
    }
  }

  // ---- what every step keeps ----

  /** Every entry here is the same entry there, in its place. */
  ghost predicate Shares(here: seq<Entry>, there: seq<Entry>)
  {
    |here| <= |there| && forall j :: 0 <= j < |here| ==> SameEntry(here[j], there[j])
  }

  ghost predicate Sound(h: Hash, project: Text, s: System)
  {
    Accepted(h, project, s.chain) && Accepted(h, project, s.legal.chain) && (s.local.moved ==> s.mover.Idle?) &&
    (s.local.moved || s.mover.Agreed? ==> Shares(s.chain, s.legal.chain))
  }

  lemma SharesMore(here: seq<Entry>, there: seq<Entry>, e: Entry)
    requires Shares(here, there)
    ensures Shares(here, there + [e])
  {
    forall j | 0 <= j < |here| ensures SameEntry(here[j], (there + [e])[j]) {
      assert SameEntry(here[j], there[j]);
    }
  }

  lemma NoEventsNoChange(t: Tables, p: Plan)
    requires Ready(p) && Finish(t, p).Success? && Finish(t, p).value.events == []
    ensures Finish(t, p).value.tables == t
  {
  }

  /** The project's rows, ledger and move are as they were; only the approval setting may differ. */
  ghost predicate SameRecords(a: State, b: State)
  {
    a.tables == b.tables && a.log == b.log && a.moved == b.moved
  }

  /** Once moved, and while the mover holds the row, nothing is recorded and no row changes. */
  lemma NothingRecorded(s: State, step: TxStep)
    requires s.moved || !NeedsLock(s, step)
    ensures SameRecords(Take(s, step), s) && Recorded(s, step) == []
  {
    if step.Write? && step.plan in s.plans && Ready(step.plan) {
      var r := Finish(s.tables, step.plan);
      if r.Success? && r.value.events == [] {
        NoEventsNoChange(s.tables, step.plan);
        assert s.log + [] == s.log;
      }
    }
  }

  lemma LocalIsSound(h: Hash, project: Text, s: System, step: TxStep)
    requires Sound(h, project, s)
    ensures Sound(h, project, Next(h, project, s, Local(step)))
  {
    StepRecords(s.local, step);
    AppendAllKeepsAccepted(h, project, s.chain, Recorded(s.local, step));
    if (s.local.moved || HoldsLock(s.mover)) && !(HoldsLock(s.mover) && NeedsLock(s.local, step)) {
      NothingRecorded(s.local, step);
    }
  }

  lemma LegalWritesIsSound(h: Hash, project: Text, s: System, e: Entry)
    requires Sound(h, project, s)
    ensures Sound(h, project, Next(h, project, s, LegalWrites(e)))
  {
    if Extends(h, project, s.legal.chain, e) {
      ExtendedIsAccepted(h, project, s.legal.chain, e);
      if Shares(s.chain, s.legal.chain) {
        SharesMore(s.chain, s.legal.chain, e);
      }
    }
  }

  lemma SendIsSound(h: Hash, project: Text, s: System)
    requires Sound(h, project, s)
    ensures Sound(h, project, Next(h, project, s, SendNext))
  {
    if (s.mover.Sending? || s.mover.SendingDelta?) && s.mover.outbox != [] && s.mover.outbox[0].Send? {
      var e := s.mover.outbox[0].entry;
      if Extends(h, project, s.legal.chain, e) {
        ExtendedIsAccepted(h, project, s.legal.chain, e);
      }
    }
  }

  /** Equal heads mean equal chains, entry for entry. */
  lemma CompareIsSound(h: Hash, project: Text, s: System)
    requires GoodHash(h) && Sound(h, project, s)
    ensures Sound(h, project, Next(h, project, s, Compare))
  {
    if s.mover.SendingDelta? && Head(s.chain) == Head(s.legal.chain) {
      HeadPinsChain(h, project, s.chain, s.legal.chain);
    }
  }

  lemma NextIsSound(h: Hash, project: Text, s: System, a: Action)
    requires GoodHash(h) && Sound(h, project, s)
    ensures Sound(h, project, Next(h, project, s, a))
  {
    match a
    case Local(step) => LocalIsSound(h, project, s, step);
    case LegalWrites(e) => LegalWritesIsSound(h, project, s, e);
    case SendNext => SendIsSound(h, project, s);
    case Compare => CompareIsSound(h, project, s);
    case _ =>
  }

  /** Over every interleaving: Legal's chain is well formed, and a moved project's whole chain is in it, entry for entry. */
  lemma {:induction false} MoveIsSound(h: Hash, project: Text, flag: bool, actions: seq<Action>)
    requires GoodHash(h)
    ensures Sound(h, project, RunMove(h, project, Start(flag), actions))
    decreases |actions|
  {
    if actions != [] {
      MoveIsSound(h, project, flag, actions[..|actions| - 1]);
      NextIsSound(h, project, RunMove(h, project, Start(flag), actions[..|actions| - 1]), actions[|actions| - 1]);
    }
  }

  /** The project is switched only by a step that finds the two chains the same, entry for entry, as Legal's stood when compared. */
  lemma SwitchNeedsAgreement(h: Hash, project: Text, s: System, a: Action)
    requires !s.local.moved && Next(h, project, s, a).local.moved
    ensures a.Switch? && s.mover.Agreed?
  {
    if a.Local? {
      StepRecords(s.local, a.step);
    }
  }

  lemma AgreementNeedsEqualHeads(h: Hash, project: Text, s: System, a: Action)
    requires GoodHash(h) && Sound(h, project, s) && !s.mover.Agreed? && Next(h, project, s, a).mover.Agreed?
    ensures a.Compare? && |s.chain| == |s.legal.chain| && Shares(s.chain, s.legal.chain)
  {
    if a.Compare? {
      CompareIsSound(h, project, s);
    }
  }

  /** After the switch the ledger, its chain and the rows never change here, whatever happens. */
  lemma {:induction false} MovedStaysPut(h: Hash, project: Text, s: System, actions: seq<Action>)
    requires s.local.moved && s.mover.Idle?
    ensures var r := RunMove(h, project, s, actions);
      SameRecords(r.local, s.local) && r.chain == s.chain && r.mover.Idle?
    decreases |actions|
  {
    if actions != [] {
      var last := actions[|actions| - 1];
      var mid := RunMove(h, project, s, actions[..|actions| - 1]);
      MovedStaysPut(h, project, s, actions[..|actions| - 1]);
      if last.Local? {
        NothingRecorded(mid.local, last.step);
      }
    }
  }

  lemma SharedDecodesAlike(here: seq<Entry>, there: seq<Entry>)
    requires Shares(here, there)
    ensures DecodeChain(there[..|here|]) == DecodeChain(here)
  {
    var n := |here|;
    if n > 0 {
      var a, b := here[1..], there[..n][1..];
      forall i | 0 <= i < |a| ensures SameEntry(a[i], b[i]) {
        assert SameEntry(here[i + 1], there[i + 1]);
      }
      SameEntriesDecodeAlike(a, b);
    }
  }

  /**
   Every write either committed before the switch and can be read back from Legal's chain, in
   order, or is refused and leaves no row and no entry, however early it had read.
   */
  lemma EveryWriteIsInLegal(h: Hash, project: Text, flag: bool, actions: seq<Action>, step: TxStep)
    requires GoodHash(h) && RunMove(h, project, Start(flag), actions).local.moved
    ensures var s := RunMove(h, project, Start(flag), actions); var n := |s.chain|;
      n <= |s.legal.chain| && DecodeChain(s.legal.chain[..n]) == Some(s.local.log) &&
      SameRecords(Next(h, project, s, Local(step)).local, s.local) && Next(h, project, s, Local(step)).chain == s.chain &&
      (NeedsLock(s.local, step) ==> Written(s.local, step.plan) == Failure(InLegal))
  {
    var s := RunMove(h, project, Start(flag), actions);
    MoveIsSound(h, project, flag, actions);
    SharedDecodesAlike(s.chain, s.legal.chain);
    StoredChain(h, project, flag, actions);
    ChainOfLog(h, project, s.local.log);
    NothingRecorded(s.local, step);
  }
}
