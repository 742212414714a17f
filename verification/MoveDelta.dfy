/**
 When the rows Legal was sent are complete, told from the chain alone. With nothing recorded
 between the first read of rows and the read of the chain, they are complete exactly when a
 re-sign change follows, or no later publish marks a version that no later entry names.
 */
module MoveDelta {
  import opened Wrappers
  import opened Text
  import opened Chain
  import opened Cla
  import opened Runs
  import opened Ledger
  import opened Move
  import opened MoveProgress
  import opened MoveRows

  // ---- what events say about rows ----

  predicate NamedBy(events: seq<Event>, k: Key)
  {
    exists j :: 0 <= j < |events| && LinkTo(LinksOf(events[j]), k.table) == Some(k.id)
  }

  predicate HasResignSet(events: seq<Event>)
  {
    exists j :: 0 <= j < |events| && events[j].ResignSet?
  }

  /** A publish among the events marked the version as stale. */
  predicate Marks(events: seq<Event>, id: nat)
  {
    exists j :: 0 <= j < |events| && events[j].DocPublished? && id in events[j].resignIds
  }

  lemma EventsConcat(a: seq<Event>, b: seq<Event>)
    ensures forall k :: NamedBy(a + b, k) <==> NamedBy(a, k) || NamedBy(b, k)
    ensures HasResignSet(a + b) <==> HasResignSet(a) || HasResignSet(b)
    ensures forall i :: Marks(a + b, i) <==> Marks(a, i) || Marks(b, i)
  {
    var c := a + b;
    assert forall j :: 0 <= j < |a| ==> c[j] == a[j];
    assert forall j :: 0 <= j < |b| ==> c[|a| + j] == b[j];
    forall k | NamedBy(b, k) ensures NamedBy(c, k) {
      var j :| 0 <= j < |b| && LinkTo(LinksOf(b[j]), k.table) == Some(k.id);
      assert c[|a| + j] == b[j];
    }
    forall i | Marks(b, i) ensures Marks(c, i) {
      var j :| 0 <= j < |b| && b[j].DocPublished? && i in b[j].resignIds;
      assert c[|a| + j] == b[j];
    }
    if HasResignSet(b) {
      var j :| 0 <= j < |b| && b[j].ResignSet?;
      assert c[|a| + j] == b[j];
    }
  }

  /** A row that is new or not as it was is named by an event, or is a version whose flag an event set. */
  ghost predicate ChangesShow(t0: Tables, t: Tables, events: seq<Event>)
  {
    forall k :: HasRow(t, k) && !Kept(t0, t, k) ==> NamedBy(events, k) || FlagShows(events, k)
  }

  predicate FlagShows(events: seq<Event>, k: Key)
  {
    k.table == Versions && (HasResignSet(events) || Marks(events, k.id))
  }

  /** Without a re-sign change, marked versions were valid before and are stale now; the others are as they were. */
  ghost predicate FlagsShow(t0: Tables, t: Tables, events: seq<Event>)
  {
    (forall i :: Marks(events, i) ==> IsStale(t, i) && !IsStale(t0, i)) &&
    (forall i :: 0 <= i < |t0.versions| && !Marks(events, i) ==> IsStale(t, i) == IsStale(t0, i))
  }

  predicate IsStale(t: Tables, id: nat)
  {
    id < |t.versions| && t.versions[id].resignRequired
  }

  ghost predicate Tracks(t0: Tables, t: Tables, events: seq<Event>)
  {
    Grows(t0, t) && ChangesShow(t0, t, events) && (!HasResignSet(events) ==> FlagsShow(t0, t, events))
  }

  lemma TracksNothing(t: Tables)
    ensures Tracks(t, t, [])
  {
  }

  lemma TracksMore(t0: Tables, t: Tables, u: Tables, a: seq<Event>, b: seq<Event>)
    requires Tracks(t0, t, a) && Tracks(t, u, b)
    ensures Tracks(t0, u, a + b)
  {
    EventsConcat(a, b);
    ChangesShowMore(t0, t, u, a, b);
    if !HasResignSet(a + b) {
      FlagsShowMore(t0, t, u, a, b);
    }
  }

  lemma ChangesShowMore(t0: Tables, t: Tables, u: Tables, a: seq<Event>, b: seq<Event>)
    requires Grows(t0, t) && Grows(t, u) && ChangesShow(t0, t, a) && ChangesShow(t, u, b)
    ensures ChangesShow(t0, u, a + b)
  {
    EventsConcat(a, b);
    forall k | HasRow(u, k) && !Kept(t0, u, k) ensures NamedBy(a + b, k) || FlagShows(a + b, k) {
      if Kept(t, u, k) {
        assert HasRow(t, k) && !Kept(t0, t, k);
      }
    }
  }

  lemma FlagsShowMore(t0: Tables, t: Tables, u: Tables, a: seq<Event>, b: seq<Event>)
    requires Grows(t0, t) && FlagsShow(t0, t, a) && FlagsShow(t, u, b)
    ensures FlagsShow(t0, u, a + b)
  {
    EventsConcat(a, b);
    forall i: nat | i < |t0.versions| && !Marks(a + b, i) ensures IsStale(u, i) == IsStale(t0, i) {
      assert HasRow(t0, Key(Versions, i));
      assert HasRow(t, Key(Versions, i));
    }
  }

  // ---- each transaction tracks ----

  lemma OneEventNames(e: Event, k: Key)
    ensures NamedBy([e], k) <==> LinkTo(LinksOf(e), k.table) == Some(k.id)
    ensures HasResignSet([e]) <==> e.ResignSet?
    ensures forall i :: Marks([e], i) <==> e.DocPublished? && i in e.resignIds
  {
    assert [e][0] == e;
  }

  lemma PublishTracks(t: Tables, p: Plan)
    requires p.PublishAs? && Finish(t, p).Success?
    ensures var c := Finish(t, p).value; Tracks(t, c.tables, c.events)
  {
    var c := Finish(t, p).value;
    PublishedRows(t, p.kind, p.number, StaleIds(t.versions, p.kind, p.requireResign, p.resignIds), c.tables);
  }

  /** A publish adds one version and marks some that were not. */
  lemma PublishedRows(t: Tables, kind: DocKind, number: nat, stale: seq<nat>, u: Tables)
    requires u == WithCurrent(t.(versions := MarkResign(t.versions, stale) + [Version(kind, number, false)]), kind, |t.versions|)
    requires forall i :: i in stale ==> i < |t.versions| && !t.versions[i].resignRequired
    ensures Tracks(t, u, [DocPublished(|t.versions|, kind, number, stale)])
  {
    var e := DocPublished(|t.versions|, kind, number, stale);
    forall k ensures NamedBy([e], k) <==> LinkTo(LinksOf(e), k.table) == Some(k.id) {
      OneEventNames(e, k);
    }
    OneEventNames(e, Key(Versions, 0));
    var marked := MarkResign(t.versions, stale);
    assert forall i :: 0 <= i < |t.versions| ==> u.versions[i] == marked[i];
  }

  lemma RosterTracks(t: Tables, corporateId: nat, entries: seq<RosterEntry>)
    requires entries != []
    ensures var c := FinishRoster(t, corporateId, entries); Tracks(t, c.tables, c.events)
  {
    var c := FinishRoster(t, corporateId, entries);
    var n, roster := |t.roster|, c.tables.roster;
    AddEntriesAre(t.roster + [Enlisted(corporateId, entries[0])], corporateId, entries[1..]);
    forall i: nat | n <= i < |roster|
      ensures i - n < |c.events| && c.events[i - n] == RosterAdded(i, corporateId, roster[i].ghLogin, roster[i].ghId)
    {
    }
    forall k | HasRow(c.tables, k) && !Kept(t, c.tables, k) ensures NamedBy(c.events, k) {
      assert k.table == Roster && c.events[k.id - n] == RosterAdded(k.id, corporateId, roster[k.id].ghLogin, roster[k.id].ghId);
    }
    forall j | 0 <= j < |c.events| ensures c.events[j].RosterAdded? {
      var i := n + j;
      assert c.events[i - n] == RosterAdded(i, corporateId, roster[i].ghLogin, roster[i].ghId);
    }
  }

  lemma FlagsTrack(t: Tables, kind: DocKind, changes: seq<ResignChange>)
    ensures var c := FinishFlags(t, kind, changes); Tracks(t, c.tables, c.events)
  {
    var c := FinishFlags(t, kind, changes);
    if c.events != [] {
      assert c.events[0].ResignSet?;
      assert HasResignSet(c.events);
    }
  }

  /** A transaction with one event that is neither a publish nor a re-sign change, and names what it changes. */
  lemma OneRowTracks(t: Tables, u: Tables, e: Event)
    requires Grows(t, u) && !e.DocPublished? && !e.ResignSet? && u.versions == t.versions
    requires forall k :: HasRow(u, k) && !Kept(t, u, k) ==> LinkTo(LinksOf(e), k.table) == Some(k.id)
    ensures Tracks(t, u, [e])
  {
    forall k ensures NamedBy([e], k) <==> LinkTo(LinksOf(e), k.table) == Some(k.id) {
      OneEventNames(e, k);
    }
    OneEventNames(e, Key(Versions, 0));
  }

  lemma InsertTracks(t: Tables, p: Plan)
    requires p.SignVersion? || p.SignCompany? || p.Waive?
    ensures var c := Finish(t, p).value; Tracks(t, c.tables, c.events)
  {
    var c := Finish(t, p).value;
    OneRowTracks(t, c.tables, c.events[0]);
  }

  lemma StatusTracks(t: Tables, p: Plan)
    requires (p.DecideCompany? || p.CloseMember? || p.CloseSignature? || p.CloseWaiver?) && Finish(t, p).Success?
    ensures var c := Finish(t, p).value; Tracks(t, c.tables, c.events)
  {
    var c := Finish(t, p).value;
    OneRowTracks(t, c.tables, c.events[0]);
  }

  /** Every transaction's events name each row it adds or changes, but for the flags a publish or a re-sign change sets. */
  lemma FinishTracks(t: Tables, p: Plan)
    requires Ready(p) && Finish(t, p).Success?
    ensures var c := Finish(t, p).value; Tracks(t, c.tables, c.events)
  {
    match p
    case PublishAs(_, _, _, _) => PublishTracks(t, p);
    case SetFlags(kind, changes) => FlagsTrack(t, kind, changes);
    case AddMembers(corporateId, entries) => RosterTracks(t, corporateId, entries);
    case CheckRoster(_, _) => TracksNothing(t);
    case SetRequired(_) => TracksNothing(t);
    case _ =>
      if p.SignVersion? || p.SignCompany? || p.Waive? {
        InsertTracks(t, p);
      } else {
        StatusTracks(t, p);
      }
  }

  lemma StepTracks(s: State, step: TxStep)
    ensures Tracks(s.tables, Take(s, step).tables, Recorded(s, step))
  {
    if step.Write? && step.plan in s.plans && Ready(step.plan) && Written(s, step.plan).Success? {
      FinishTracks(s.tables, step.plan);
      var c := Finish(s.tables, step.plan).value;
      assert (s.log + c.events)[|s.log|..] == c.events;
    } else {
      TracksNothing(s.tables);
    }
  }

  // ---- the entries of the chain are those of the events ----

  predicate Matches(chain: seq<Entry>, log: seq<Event>)
  {
    |chain| == (if log == [] then 0 else |log| + 1) &&
    (forall j :: 0 <= j < |log| ==> EntryFor(chain, j, log[j])) &&
    (chain != [] ==> chain[0].links == NO_LINKS && chain[0].kind == GENESIS_KIND)
  }

  predicate EntryFor(chain: seq<Entry>, j: nat, e: Event)
  {
    j + 1 < |chain| && chain[j + 1].links == LinksOf(e) && chain[j + 1].kind == KindText(KindOf(e))
  }

  lemma AppendMatches(h: Hash, project: Text, chain: seq<Entry>, log: seq<Event>, e: Event)
    requires Matches(chain, log)
    ensures Matches(AppendEvent(h, project, chain, e), log + [e])
  {
    var c := AppendEvent(h, project, chain, e);
    AppendEventGrows(h, project, chain, e);
    assert c[|c| - 1].links == LinksOf(e) && c[|c| - 1].kind == KindText(KindOf(e));
    forall j | 0 <= j < |log| + 1 ensures EntryFor(c, j, (log + [e])[j]) {
      if j < |log| { assert EntryFor(chain, j, log[j]); }
    }
  }

  lemma {:induction false} ChainMatches(h: Hash, project: Text, log: seq<Event>)
    ensures Matches(ChainOf(h, project, log), log)
    decreases |log|
  {
    if log != [] {
      var init, e := log[..|log| - 1], log[|log| - 1];
      var c := ChainOf(h, project, init);
      assert log == init + [e];
      assert ChainOf(h, project, log) == AppendEvent(h, project, c, e);
      ChainMatches(h, project, init);
      AppendMatches(h, project, c, init, e);
    }
  }

  /** A place the chain can have ended at when it was read. */
  predicate GoodEnd(upTo: int, log: seq<Event>)
  {
    upTo == -1 || 1 <= upTo <= |log|
  }

  function LaterEvents(log: seq<Event>, upTo: int): seq<Event>
  {
    if 0 < upTo <= |log| then log[upTo..] else log
  }

  lemma ResignSetKind(e: Event)
    ensures KindText(KindOf(e)) == DOC_RESIGN_SET <==> e.ResignSet?
  {
    KindRoundTrip(KindOf(e));
    KindRoundTrip(DocResignSetKind);
  }

  /** After `shift` entries that name nothing, the entries are those of the events. */
  ghost predicate Follows(entries: seq<Entry>, shift: nat, events: seq<Event>)
  {
    |entries| == shift + |events| &&
    (forall j :: 0 <= j < shift ==> entries[j].links == NO_LINKS && entries[j].kind != DOC_RESIGN_SET) &&
    (forall j :: 0 <= j < |events| ==> IsEntryOf(entries, shift + j, events[j]))
  }

  predicate IsEntryOf(entries: seq<Entry>, i: nat, e: Event)
  {
    i < |entries| && entries[i].links == LinksOf(e) && (entries[i].kind == DOC_RESIGN_SET <==> e.ResignSet?)
  }

  lemma LinkedMatches(entries: seq<Entry>, shift: nat, events: seq<Event>, k: Key)
    requires Follows(entries, shift, events)
    ensures Linked(entries, k) <==> NamedBy(events, k)
  {
    if Linked(entries, k) {
      var j :| 0 <= j < |entries| && LinkTo(entries[j].links, k.table) == Some(k.id);
      assert j >= shift && IsEntryOf(entries, shift + (j - shift), events[j - shift]);
    }
    if NamedBy(events, k) {
      var j :| 0 <= j < |events| && LinkTo(LinksOf(events[j]), k.table) == Some(k.id);
      assert IsEntryOf(entries, shift + j, events[j]);
    }
  }

  lemma ResignSetMatches(entries: seq<Entry>, shift: nat, events: seq<Event>)
    requires Follows(entries, shift, events)
    ensures SomeResignSet(entries) <==> HasResignSet(events)
  {
    if SomeResignSet(entries) {
      var j :| 0 <= j < |entries| && entries[j].kind == DOC_RESIGN_SET;
      assert j >= shift && IsEntryOf(entries, shift + (j - shift), events[j - shift]);
    }
    if HasResignSet(events) {
      var j :| 0 <= j < |events| && events[j].ResignSet?;
      assert IsEntryOf(entries, shift + j, events[j]);
    }
  }

  lemma LaterFollows(chain: seq<Entry>, log: seq<Event>, upTo: int)
    requires Matches(chain, log) && GoodEnd(upTo, log)
    ensures Follows(Later(chain, upTo), if upTo == -1 && chain != [] then 1 else 0, LaterEvents(log, upTo))
  {
    var later, events := Later(chain, upTo), LaterEvents(log, upTo);
    var shift := if upTo == -1 && chain != [] then 1 else 0;
    GenesisIsNoResign();
    forall j | 0 <= j < |events| ensures IsEntryOf(later, shift + j, events[j]) {
      var i := if upTo == -1 then j else upTo + j;
      assert EntryFor(chain, i, log[i]);
      ResignSetKind(log[i]);
    }
  }

  /** What the mover reads off the later entries is what the later events say. */
  lemma LaterMatches(chain: seq<Entry>, log: seq<Event>, upTo: int, k: Key)
    requires Matches(chain, log) && GoodEnd(upTo, log)
    ensures var events := LaterEvents(log, upTo);
      InDelta(Later(chain, upTo), k) <==> NamedBy(events, k) || (k.table == Versions && HasResignSet(events))
  {
    var shift := if upTo == -1 && chain != [] then 1 else 0;
    LaterFollows(chain, log, upTo);
    LinkedMatches(Later(chain, upTo), shift, LaterEvents(log, upTo), k);
    ResignSetMatches(Later(chain, upTo), shift, LaterEvents(log, upTo));
  }

  lemma GenesisIsNoResign()
    ensures GENESIS_KIND != DOC_RESIGN_SET
  {
    assert |GENESIS_KIND| == 7 && |DOC_RESIGN_SET| == 14;
  }

  // ---- tracking through a run ----

  /** The tables read so far are as they are now. */
  predicate SameSoFar(snap: Tables, t: Tables, n: nat)
  {
    (n > 0 ==> snap.versions == t.versions) && (n > 1 ==> snap.signatures == t.signatures) &&
    (n > 2 ==> snap.corporates == t.corporates) && (n > 3 ==> snap.roster == t.roster) &&
    (n > 4 ==> snap.waivers == t.waivers)
  }

  /** How many events the chain held when it was read. */
  function EventsRead(upTo: int): nat { if upTo < 0 then 0 else upTo }

  /** Nothing was recorded between the first read of rows and the read of the chain. */
  predicate Quiet(m: Mover)
    requires m.Sending? || m.Locked? || m.SendingDelta? || m.Agreed?
  {
    m.begun == EventsRead(m.upTo)
  }

  predicate Touched(events: seq<Event>, k: Key) { NamedBy(events, k) || FlagShows(events, k) }

  /** Of the first `n` tables, rows no event touched are as they were read. */
  ghost predicate UntouchedKept(snap: Tables, t: Tables, n: nat, events: seq<Event>)
  {
    forall k: Key :: TableNumber(k.table) < n && HasRow(t, k) && !Touched(events, k) ==> Kept(snap, t, k)
  }

  ghost predicate TracksFrom(snap: Tables, s: State, upTo: int, begun: nat)
  {
    GoodEnd(upTo, s.log) && begun <= EventsRead(upTo) <= |s.log| && UntouchedKept(snap, s.tables, 5, s.log[begun..]) &&
    (begun == EventsRead(upTo) ==> Tracks(snap, s.tables, LaterEvents(s.log, upTo)))
  }

  ghost predicate TracksReading(snap: Tables, s: State, n: nat, begun: nat)
  {
    begun <= |s.log| && UntouchedKept(snap, s.tables, n, s.log[begun..]) &&
    (begun == |s.log| ==> SameSoFar(snap, s.tables, n))
  }

  ghost predicate Tracked(s: System)
  {
    match s.mover
    case Idle => true
    case Reading(snap, n, begun) => TracksReading(snap, s.local, n, begun)
    case Sending(_, upTo, snap, begun) => TracksFrom(snap, s.local, upTo, begun)
    case Locked(upTo, snap, begun) => TracksFrom(snap, s.local, upTo, begun)
    case SendingDelta(_, upTo, snap, begun) => TracksFrom(snap, s.local, upTo, begun)
    case Agreed(upTo, snap, begun) => TracksFrom(snap, s.local, upTo, begun)
  }

  lemma UntouchedMore(snap: Tables, t: Tables, u: Tables, n: nat, a: seq<Event>, b: seq<Event>)
    requires UntouchedKept(snap, t, n, a) && ChangesShow(t, u, b)
    ensures UntouchedKept(snap, u, n, a + b)
  {
    EventsConcat(a, b);
    forall k: Key | TableNumber(k.table) < n && HasRow(u, k) && !Touched(a + b, k) ensures Kept(snap, u, k) {
      assert !Touched(a, k) && !Touched(b, k) && Kept(t, u, k);
    }
  }

  lemma LaterMore(log: seq<Event>, more: seq<Event>, upTo: int)
    requires GoodEnd(upTo, log)
    ensures GoodEnd(upTo, log + more) && LaterEvents(log + more, upTo) == LaterEvents(log, upTo) + more
  {
  }

  lemma StepUntouched(snap: Tables, s: State, step: TxStep, n: nat, begun: nat)
    requires begun <= |s.log| && UntouchedKept(snap, s.tables, n, s.log[begun..])
    ensures begun <= |Take(s, step).log| && UntouchedKept(snap, Take(s, step).tables, n, Take(s, step).log[begun..])
  {
    StepRecords(s, step);
    StepTracks(s, step);
    UntouchedMore(snap, s.tables, Take(s, step).tables, n, s.log[begun..], Recorded(s, step));
    assert Take(s, step).log[begun..] == s.log[begun..] + Recorded(s, step);
  }

  lemma StepTracksFrom(snap: Tables, s: State, step: TxStep, upTo: int, begun: nat)
    requires TracksFrom(snap, s, upTo, begun)
    ensures TracksFrom(snap, Take(s, step), upTo, begun)
  {
    StepRecords(s, step);
    StepUntouched(snap, s, step, 5, begun);
    LaterMore(s.log, Recorded(s, step), upTo);
    if begun == EventsRead(upTo) {
      StepTracks(s, step);
      TracksMore(snap, s.tables, Take(s, step).tables, LaterEvents(s.log, upTo), Recorded(s, step));
    }
  }

  lemma StepTracksReading(snap: Tables, s: State, step: TxStep, n: nat, begun: nat)
    requires TracksReading(snap, s, n, begun)
    ensures TracksReading(snap, Take(s, step), n, begun)
  {
    StepUntouched(snap, s, step, n, begun);
    SilentStep(s, step);
  }

  lemma SilentStep(s: State, step: TxStep)
    ensures |s.log| <= |Take(s, step).log| && (|Take(s, step).log| == |s.log| ==> Take(s, step).tables == s.tables)
  {
    if !NeedsLock(s, step) || s.moved {
      NothingRecorded(s, step);
    }
  }

  lemma LocalKeepsTracked(h: Hash, project: Text, s: System, step: TxStep)
    requires Tracked(s)
    ensures Tracked(Next(h, project, s, Local(step)))
  {
    if !(HoldsLock(s.mover) && NeedsLock(s.local, step)) {
      match s.mover
      case Idle =>
      case Reading(snap, n, begun) => StepTracksReading(snap, s.local, step, n, begun);
      case Sending(_, upTo, snap, begun) => StepTracksFrom(snap, s.local, step, upTo, begun);
      case Locked(upTo, snap, begun) => StepTracksFrom(snap, s.local, step, upTo, begun);
      case SendingDelta(_, upTo, snap, begun) => StepTracksFrom(snap, s.local, step, upTo, begun);
      case Agreed(upTo, snap, begun) => StepTracksFrom(snap, s.local, step, upTo, begun);
    }
  }

  lemma SameTracksNothing(snap: Tables, t: Tables)
    requires SameSoFar(snap, t, 5)
    ensures Tracks(snap, t, [])
  {
  }

  lemma ReadUntouched(snap: Tables, t: Tables, n: nat, events: seq<Event>)
    requires UntouchedKept(snap, t, n, events) && n < 5
    ensures UntouchedKept(ReadTable(snap, t, n), t, n + 1, events)
  {
    var next := ReadTable(snap, t, n);
    forall k: Key | TableNumber(k.table) < n + 1 && HasRow(t, k) && !Touched(events, k) ensures Kept(next, t, k) {
      if TableNumber(k.table) < n {
        assert Kept(snap, t, k);
      }
    }
  }

  lemma ReadKeepsTracked(s: System)
    requires Tracked(s) && s.mover.Reading? && Matches(s.chain, s.local.log)
    ensures Tracked(s.(mover := MoverReads(s.chain, s)))
  {
    var m := s.mover;
    if m.tables < 5 {
      ReadUntouched(m.snap, s.local.tables, m.tables, s.local.log[m.begun..]);
    } else {
      ReadIsDone(m.snap, s.local, m.tables, m.begun);
    }
  }

  lemma ReadIsDone(snap: Tables, s: State, n: nat, begun: nat)
    requires TracksReading(snap, s, n, begun) && n >= 5
    ensures TracksFrom(snap, s, if s.log == [] then -1 else |s.log|, begun)
  {
    if begun == |s.log| {
      SameTracksNothing(snap, s.tables);
    }
  }

  lemma NextKeepsTracked(h: Hash, project: Text, s: System, a: Action)
    requires Tracked(s) && Matches(s.chain, s.local.log)
    ensures Tracked(Next(h, project, s, a))
  {
    match a
    case Local(step) => LocalKeepsTracked(h, project, s, step);
    case ReadNext => if s.mover.Reading? { ReadKeepsTracked(s); }
    case _ =>
  }

  lemma {:induction false} RunKeepsTracked(h: Hash, project: Text, flag: bool, actions: seq<Action>)
    ensures var s := RunMove(h, project, Start(flag), actions); Tracked(s) && Matches(s.chain, s.local.log)
    decreases |actions|
  {
    StoredChain(h, project, flag, actions);
    ChainMatches(h, project, RunMove(h, project, Start(flag), actions).local.log);
    if actions != [] {
      RunKeepsTracked(h, project, flag, actions[..|actions| - 1]);
      NextKeepsTracked(h, project, RunMove(h, project, Start(flag), actions[..|actions| - 1]), actions[|actions| - 1]);
    }
  }

  // ---- when the rows are complete ----

  /** Every version a later publish marked is named by a later entry, or a re-sign change had the texts sent again whole. */
  ghost predicate MarksAreSent(events: seq<Event>)
  {
    HasResignSet(events) || forall i :: Marks(events, i) ==> NamedBy(events, Key(Versions, i))
  }

  lemma QuietRowsArrive(s: System)
    requires Stage(s) && Tracked(s) && Matches(s.chain, s.local.log) && s.mover.Agreed? && Quiet(s.mover)
    ensures Complete(s.legal.rows, s.local.tables) <==> MarksAreSent(LaterEvents(s.local.log, s.mover.upTo))
  {
    var t, snap, log, upTo := s.local.tables, s.mover.snap, s.local.log, s.mover.upTo;
    var events := LaterEvents(log, upTo);
    RowsArriveExactly(s);
    forall k ensures InDelta(Later(s.chain, upTo), k) <==> NamedBy(events, k) || (k.table == Versions && HasResignSet(events)) {
      LaterMatches(s.chain, log, upTo, k);
    }
    if !MarksAreSent(events) {
      var i :| Marks(events, i) && !NamedBy(events, Key(Versions, i));
      assert HasRow(t, Key(Versions, i)) && !Kept(snap, t, Key(Versions, i));
    }
  }

  /**
   In any run, when the chains are found equal and nothing was recorded between the first read of
   rows and the read of the chain: Legal has every row in its final status exactly when the later
   entries bring what the later publishes marked.
   */
  lemma RowsAtAgreement(h: Hash, project: Text, flag: bool, actions: seq<Action>)
    requires var m := RunMove(h, project, Start(flag), actions).mover; m.Agreed? && Quiet(m)
    ensures var s := RunMove(h, project, Start(flag), actions);
      Complete(s.legal.rows, s.local.tables) <==> MarksAreSent(LaterEvents(s.local.log, s.mover.upTo))
  {
    RunKeepsStage(h, project, flag, actions);
    RunKeepsTracked(h, project, flag, actions);
    QuietRowsArrive(RunMove(h, project, Start(flag), actions));
  }

  /** In particular every row arrives when no later publish marks an older version. */
  lemma RowsArrive(h: Hash, project: Text, flag: bool, actions: seq<Action>)
    requires var s := RunMove(h, project, Start(flag), actions);
      s.mover.Agreed? && Quiet(s.mover) && forall i :: !Marks(LaterEvents(s.local.log, s.mover.upTo), i)
    ensures var r := Next(h, project, RunMove(h, project, Start(flag), actions), Switch);
      r.local.moved && Complete(r.legal.rows, r.local.tables)
  {
    RowsAtAgreement(h, project, flag, actions);
  }

  // ---- with writes among the reads ----

  /** What was recorded between the first read of rows and the read of the chain. */
  function Among(log: seq<Event>, begun: nat, upTo: int): seq<Event>
  {
    if begun <= EventsRead(upTo) <= |log| then log[begun..EventsRead(upTo)] else []
  }

  lemma AmongThenLater(log: seq<Event>, begun: nat, upTo: int)
    requires GoodEnd(upTo, log) && begun <= EventsRead(upTo) <= |log|
    ensures log[begun..] == Among(log, begun, upTo) + LaterEvents(log, upTo)
  {
  }

  /** Rows touched among the reads, or marked since, that no later entry brings are as they were read. */
  ghost predicate MissedAreKept(snap: Tables, t: Tables, among: seq<Event>, later: seq<Event>)
  {
    forall k :: HasRow(t, k) && !Brought(later, k) && (Touched(among, k) || FlagShows(later, k)) ==> Kept(snap, t, k)
  }

  /** The later events have the row read again. */
  predicate Brought(later: seq<Event>, k: Key) { NamedBy(later, k) || (k.table == Versions && HasResignSet(later)) }

  lemma UntouchedArrive(s: System)
    requires Stage(s) && Tracked(s) && Matches(s.chain, s.local.log) && s.mover.Agreed?
    ensures var m, log := s.mover, s.local.log;
      Complete(s.legal.rows, s.local.tables) <==>
      MissedAreKept(m.snap, s.local.tables, Among(log, m.begun, m.upTo), LaterEvents(log, m.upTo))
  {
    var t, m, log := s.local.tables, s.mover, s.local.log;
    var among, later := Among(log, m.begun, m.upTo), LaterEvents(log, m.upTo);
    RowsArriveExactly(s);
    AmongThenLater(log, m.begun, m.upTo);
    EventsConcat(among, later);
    forall k | HasRow(t, k)
      ensures InDelta(Later(s.chain, m.upTo), k) <==> Brought(later, k)
      ensures !Brought(later, k) && !Touched(among, k) && !FlagShows(later, k) ==> Kept(m.snap, t, k)
    {
      LaterMatches(s.chain, log, m.upTo, k);
      assert Touched(log[m.begun..], k) <==> Touched(among, k) || Touched(later, k);
    }
  }

  /**
   In any run, whatever was written among the reads: when the chains are found equal, Legal has every
   row in its final status exactly when each row touched among the reads, or marked by a later
   publish, is brought by a later entry or is again as it was read.
   */
  lemma RowsDespiteWrites(h: Hash, project: Text, flag: bool, actions: seq<Action>)
    requires RunMove(h, project, Start(flag), actions).mover.Agreed?
    ensures var s := RunMove(h, project, Start(flag), actions); var m, log := s.mover, s.local.log;
      Complete(s.legal.rows, s.local.tables) <==>
      MissedAreKept(m.snap, s.local.tables, Among(log, m.begun, m.upTo), LaterEvents(log, m.upTo))
  {
    RunKeepsStage(h, project, flag, actions);
    RunKeepsTracked(h, project, flag, actions);
    UntouchedArrive(RunMove(h, project, Start(flag), actions));
  }

  // ---- the two ways rows are missed ----

  /** The project after one published individual agreement. */
  ghost predicate OneVersion(s: State)
  {
    !s.moved && s.tables.versions == [Version(Icla, 1, false)] && s.tables.currentIcla == Some(0) &&
    s.tables.signatures == [] && |s.log| == 1
  }

  lemma FirstPublish()
    ensures OneVersion(Step(Initial(true), Publish(Icla, false, [])))
  {
    var c := PublishChange(EMPTY, Icla, false, []);
    assert c.tables.versions == [Version(Icla, 1, false)];
    assert [] + c.events == c.events;
  }

  lemma BeginStep(h: Hash, project: Text, s: System)
    requires s.mover.Idle? && !s.local.moved
    ensures Next(h, project, s, Begin) == s.(mover := Reading(EMPTY, 0, |s.local.log|))
  {
  }

  lemma ReadStep(h: Hash, project: Text, s: System)
    requires s.mover.Reading? && s.mover.tables < 5
    ensures Next(h, project, s, ReadNext) ==
      s.(mover := Reading(ReadTable(s.mover.snap, s.local.tables, s.mover.tables), s.mover.tables + 1, s.mover.begun))
  {
  }

  ghost predicate NoLegal(actions: seq<Action>)
  {
    forall i :: 0 <= i < |actions| ==> !actions[i].LegalWrites?
  }

  /** A reached state, and the steps that reach it. */
  ghost predicate Reached(h: Hash, project: Text, actions: seq<Action>, s: System)
  {
    NoLegal(actions) && s == RunMove(h, project, Start(true), actions)
  }

  lemma ReachNext(h: Hash, project: Text, actions: seq<Action>, s: System, a: Action) returns (more: seq<Action>, r: System)
    requires Reached(h, project, actions, s) && !a.LegalWrites?
    ensures Reached(h, project, more, r) && r == Next(h, project, s, a)
  {
    more, r := actions + [a], Next(h, project, s, a);
    ThenOne(h, project, Start(true), actions, s, a);
  }

  lemma LocalStep(h: Hash, project: Text, s: System, step: TxStep)
    requires !HoldsLock(s.mover)
    ensures var r := Next(h, project, s, Local(step));
      r.local == Take(s.local, step) && r.mover == s.mover && r.legal == s.legal
  {
  }

  /** A transaction that nobody overlaps, in two steps. */
  lemma ReachWhole(h: Hash, project: Text, actions: seq<Action>, s: System, op: Op) returns (more: seq<Action>, r: System)
    requires Reached(h, project, actions, s) && !HoldsLock(s.mover) && !op.AddRoster?
    ensures Reached(h, project, more, r) && r.mover == s.mover && r.local.(plans := {}) == Step(s.local, op).(plans := {})
  {
    more, r := actions, s;
    if Attempted(s.local, op).Success? {
      StepInTwo(s.local, op);
      var p := PlanOf(s.local.tables, s.local.requiresApproval, op).value;
      LocalStep(h, project, s, Read(op));
      more, r := ReachNext(h, project, actions, s, Local(Read(op)));
      LocalStep(h, project, r, Write(p));
      more, r := ReachNext(h, project, more, r, Local(Write(p)));
    }
  }

  lemma ReachedIsClean(h: Hash, project: Text, actions: seq<Action>, s: System)
    requires Reached(h, project, actions, s)
    ensures Clean(h, project, s) && Stage(s) && Tracked(s) && Matches(s.chain, s.local.log)
  {
    RunIsClean(h, project, true, actions);
    RunKeepsStage(h, project, true, actions);
    RunKeepsTracked(h, project, true, actions);
  }

  lemma StartIsReached(h: Hash, project: Text)
    ensures Reached(h, project, [], Start(true))
  {
  }

  lemma OneVersionStays(a: State, b: State)
    requires OneVersion(a) && b.(plans := {}) == a.(plans := {})
    ensures OneVersion(b)
  {
  }

  lemma PublishedOnce(h: Hash, project: Text) returns (actions: seq<Action>, s: System)
    ensures Reached(h, project, actions, s) && OneVersion(s.local) && s.mover.Idle?
  {
    StartIsReached(h, project);
    var op := Publish(Icla, false, []);
    actions, s := ReachWhole(h, project, [], Start(true), op);
    FirstPublish();
    OneVersionStays(Step(Initial(true), op), s.local);
  }

  /** The mover has begun on a project with one published individual agreement. */
  lemma Begun(h: Hash, project: Text) returns (actions: seq<Action>, s: System)
    ensures Reached(h, project, actions, s) && OneVersion(s.local) && s.mover == Reading(EMPTY, 0, 1)
  {
    actions, s := PublishedOnce(h, project);
    BeginStep(h, project, s);
    actions, s := ReachNext(h, project, actions, s, Begin);
  }

  /** A publish that marks version 0, recorded once the chain has been read. */
  lemma MarkingPublish(s: State)
    requires OneVersion(s)
    ensures var r := Step(s, Publish(Icla, true, []));
      var events := LaterEvents(r.log, 1);
      Marks(events, 0) && !HasResignSet(events) && !NamedBy(events, Key(Versions, 0))
  {
    var op := Publish(Icla, true, []);
    var stale := StaleIds(s.tables.versions, Icla, true, []);
    assert 0 in stale;
    var e := DocPublished(1, Icla, MaxNumber(s.tables.versions, Icla) + 1, stale);
    var r := Step(s, op);
    assert r.log == s.log + [e];
    assert LaterEvents(r.log, 1) == [e];
    OneEventNames(e, Key(Versions, 0));
  }

  /** The steps to the agreement, appended to a run. */
  lemma ReachAgreement(h: Hash, project: Text, actions: seq<Action>, s: System) returns (all: seq<Action>, r: System)
    requires Reached(h, project, actions, s) && s.mover.Sending?
    ensures r == RunMove(h, project, Start(true), all) && r.local == s.local && r.chain == s.chain
    ensures r.mover == Agreed(s.mover.upTo, s.mover.snap, s.mover.begun)
  {
    ReachedIsClean(h, project, actions, s);
    var rest;
    rest, r := FinishFrom(h, project, s);
    MoveConcat(h, project, Start(true), actions, rest);
    all := actions + rest;
  }

  lemma ReachSending(h: Hash, project: Text, actions: seq<Action>, s: System) returns (all: seq<Action>, r: System)
    requires Reached(h, project, actions, s) && s.mover.Reading?
    ensures Reached(h, project, all, r) && r.local == s.local && r.mover.Sending?
    ensures r.chain == s.chain && r.mover.upTo == |s.chain| - 1 && r.mover.begun == s.mover.begun
    ensures s.mover.tables > 1 ==> r.mover.snap.signatures == s.mover.snap.signatures
  {
    ReachedIsClean(h, project, actions, s);
    var readings;
    readings, r := ReadTables(h, project, s);
    MoveConcat(h, project, Start(true), actions, readings);
    all := actions + readings;
  }

  /**
   Published with everyone to sign again, after the chain was read and before the lock: the chains
   agree, and Legal still has the first version as valid.
   */
  lemma MarkedVersionIsMissed(h: Hash, project: Text) returns (actions: seq<Action>, s: System)
    ensures s == RunMove(h, project, Start(true), actions)
    ensures s.mover.Agreed? && Quiet(s.mover) && !Complete(s.legal.rows, s.local.tables)
  {
    actions, s := Begun(h, project);
    ReachedIsClean(h, project, actions, s);
    actions, s := ReachSending(h, project, actions, s);
    var op := Publish(Icla, true, []);
    MarkingPublish(s.local);
    actions, s := ReachWhole(h, project, actions, s, op);
    actions, s := ReachAgreement(h, project, actions, s);
    RowsAtAgreement(h, project, true, actions);
  }

  lemma SignatureAdded(s: State)
    requires OneVersion(s)
    ensures |Step(s, SignIcla(7, [])).tables.signatures| == 1
  {
  }

  lemma SignatureIsMissed(s: System)
    requires Stage(s) && s.mover.Agreed? && s.mover.upTo == |s.chain| - 1
    requires s.mover.snap.signatures == [] && |s.local.tables.signatures| == 1
    ensures !Complete(s.legal.rows, s.local.tables)
  {
    RowsArriveExactly(s);
    var k := Key(Signatures, 0);
    assert Later(s.chain, s.mover.upTo) == [];
    assert HasRow(s.local.tables, k) && !InDelta(Later(s.chain, s.mover.upTo), k) && !Kept(s.mover.snap, s.local.tables, k);
  }

  /** A signature recorded after the signatures were read and before the chain was: Legal is never sent it. */
  lemma WriteAmongReadsIsMissed(h: Hash, project: Text) returns (actions: seq<Action>, s: System)
    ensures s == RunMove(h, project, Start(true), actions)
    ensures s.mover.Agreed? && !Complete(s.legal.rows, s.local.tables)
  {
    actions, s := Begun(h, project);
    ReadStep(h, project, s);
    actions, s := ReachNext(h, project, actions, s, ReadNext);
    ReadStep(h, project, s);
    actions, s := ReachNext(h, project, actions, s, ReadNext);
    SignatureAdded(s.local);
    actions, s := ReachWhole(h, project, actions, s, SignIcla(7, []));
    actions, s := ReachSending(h, project, actions, s);
    actions, s := ReachAgreement(h, project, actions, s);
    RunKeepsStage(h, project, true, actions);
    SignatureIsMissed(s);
  }
}
