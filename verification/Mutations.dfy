/**
 The transactions on one project's CLA records. Each works on its own copy of the rows and
 collects what it will record; committing appends that to the stored chain and makes the rows
 the project's, or leaves both as they were.
 */
module Mutations {
  import opened Wrappers
  import opened Text
  import opened Json
  import opened Chain
  import opened Cla
  import opened Runs
  import opened Ledger
  import opened Regate

  /** A transaction's own view: the rows as it leaves them, and its events in order. */
  datatype Tx = Tx(rows: Tables, events: seq<Event>)

  /** The transaction does what `ChangeOf` gives, or fails as it does. */
  ghost predicate Does(found: Tables, required: bool, op: Op, r: Result<Tx, ClaError>)
  {
    match ChangeOf(found, required, op)
    case Failure(e) => r == Failure(e)
    case Success(c) => r == Success(Tx(c.tables, c.events))
  }

  // ---- documents ----

  /** The stale versions other than the new one. */
  function OtherStaleIds(versions: seq<Version>, docId: nat, kind: DocKind, requireResign: bool, resignIds: seq<nat>): seq<nat>
  {
    Select(|versions|, (i: nat) => i < |versions| && versions[i].kind == kind && i != docId && !versions[i].resignRequired
                               && (requireResign || i in resignIds))
  }

  lemma {:induction false} SelectAgrees(n: nat, p: nat -> bool, q: nat -> bool)
    requires forall i: nat :: i < n ==> p(i) == q(i)
    ensures Select(n, p) == Select(n, q)
    decreases n
  {
    if n > 0 {
      SelectAgrees(n - 1, p, q);
    }
  }

  lemma NewVersionIsNotStale(versions: seq<Version>, v: Version, kind: DocKind, requireResign: bool, resignIds: seq<nat>)
    ensures OtherStaleIds(versions + [v], |versions|, kind, requireResign, resignIds) == StaleIds(versions, kind, requireResign, resignIds)
  {
    var all, n := versions + [v], |versions|;
    var p := (i: nat) => i < |all| && all[i].kind == kind && i != n && !all[i].resignRequired && (requireResign || i in resignIds);
    var q := (i: nat) => i < n && versions[i].kind == kind && !versions[i].resignRequired && (requireResign || i in resignIds);
    SelectAgrees(n, p, q);
    assert Select(n + 1, p) == Select(n, p) + [];
    assert OtherStaleIds(all, n, kind, requireResign, resignIds) == Select(n + 1, p);
    assert StaleIds(versions, kind, requireResign, resignIds) == Select(n, q);
  }

  lemma MarkingLeavesNew(versions: seq<Version>, v: Version, stale: seq<nat>)
    requires forall i :: i in stale ==> i < |versions|
    ensures MarkResign(versions + [v], stale) == MarkResign(versions, stale) + [v]
    ensures stale == [] ==> MarkResign(versions, stale) + [v] == versions + [v]
  {
    if stale == [] {
      assert MarkResign(versions, stale) == versions;
    }
  }

  lemma PublishDoes(found: Tables, kind: DocKind, requireResign: bool, resignIds: seq<nat>)
    ensures var doc := Version(kind, MaxNumber(found.versions, kind) + 1, false);
      var stale := StaleIds(found.versions, kind, requireResign, resignIds);
      var rows := WithCurrent(found.(versions := MarkResign(found.versions, stale) + [doc]), kind, |found.versions|);
      Does(found, false, Publish(kind, requireResign, resignIds),
           Success(Tx(rows, [DocPublished(|found.versions|, kind, doc.number, stale)])))
  {
  }

  lemma {:induction false} SelectNone(n: nat, p: nat -> bool)
    requires forall i: nat :: i < n ==> !p(i)
    ensures Select(n, p) == []
    decreases n
  {
    if n > 0 {
      SelectNone(n - 1, p);
    }
  }

  lemma NoneAskedNoneStale(versions: seq<Version>, kind: DocKind)
    ensures StaleIds(versions, kind, false, []) == []
  {
    SelectNone(|versions|, (i: nat) => i < |versions| && versions[i].kind == kind && !versions[i].resignRequired
                                       && (false || i in []));
  }

  lemma NoneOnNoVersions(t: Tables, kind: DocKind)
    ensures ActiveSigners(t, kind, []) == {}
  {
  }

  /** Which older versions a publish marks, looked up once the new one is stored. */
  method FindStale(versions: seq<Version>, doc: Version, kind: DocKind, requireResign: bool, resignIds: seq<nat>)
    returns (stale: seq<nat>)
    ensures stale == StaleIds(versions, kind, requireResign, resignIds)
  {
    if requireResign || resignIds != [] {
      NewVersionIsNotStale(versions, doc, kind, requireResign, resignIds);
      stale := OtherStaleIds(versions + [doc], |versions|, kind, requireResign, resignIds);
    } else {
      NoneAskedNoneStale(versions, kind);
      stale := [];
    }
  }

  lemma CurrentIsNoSigner(t: Tables, kind: DocKind, id: nat, ids: seq<nat>)
    ensures ActiveSigners(WithCurrent(t, kind, id), kind, ids) == ActiveSigners(t, kind, ids)
  {
  }

  /** The new version stored, the older ones it makes stale marked, and the accounts that signed those. */
  method StoreVersion(found: Tables, doc: Version, requireResign: bool, resignIds: seq<nat>)
    returns (rows: Tables, stale: seq<nat>, affected: set<int>)
    ensures stale == StaleIds(found.versions, doc.kind, requireResign, resignIds)
    ensures rows == found.(versions := MarkResign(found.versions, stale) + [doc])
    ensures affected == ActiveSigners(rows, doc.kind, stale)
  {
    rows := found.(versions := found.versions + [doc]);
    stale := FindStale(found.versions, doc, doc.kind, requireResign, resignIds);
    MarkingLeavesNew(found.versions, doc, stale);
    if stale != [] {
      rows := rows.(versions := MarkResign(rows.versions, stale));
      affected := ActiveSigners(rows, doc.kind, stale);
    } else {
      NoneOnNoVersions(rows, doc.kind);
      affected := {};
    }
  }

  method PublishTx(found: Tables, kind: DocKind, requireResign: bool, resignIds: seq<nat>)
    returns (tx: Tx, number: nat, affected: set<int>)
    ensures Does(found, false, Publish(kind, requireResign, resignIds), Success(tx))
    ensures tx.rows.versions[|found.versions|..] == [Version(kind, number, false)]
    ensures affected == ActiveSigners(tx.rows, kind, StaleIds(found.versions, kind, requireResign, resignIds))
  {
    number := MaxNumber(found.versions, kind) + 1;
    var docId := |found.versions|;
    var rows, stale;
    rows, stale, affected := StoreVersion(found, Version(kind, number, false), requireResign, resignIds);
    CurrentIsNoSigner(rows, kind, docId, stale);
    PublishDoes(found, kind, requireResign, resignIds);
    tx := Tx(WithCurrent(rows, kind, docId), [DocPublished(docId, kind, number, stale)]);
  }

  // ---- re-sign flags ----

  /** Only the ids that `q` keeps, in order. */
  function Keep(ids: seq<nat>, q: nat -> bool): seq<nat>
  {
    if ids == [] then [] else Keep(ids[..|ids| - 1], q) + if q(ids[|ids| - 1]) then [ids[|ids| - 1]] else []
  }

  lemma KeepOneMore(ids: seq<nat>, id: nat, q: nat -> bool)
    ensures Keep(ids + [id], q) == Keep(ids, q) + if q(id) then [id] else []
  {
    assert (ids + [id])[..|ids|] == ids;
  }

  ghost predicate SelectsBoth(n: nat, p: nat -> bool, q: nat -> bool, both: nat -> bool)
  {
    forall i: nat :: i < n ==> both(i) == (p(i) && q(i))
  }

  lemma {:induction false} SelectKeeps(n: nat, p: nat -> bool, q: nat -> bool, both: nat -> bool)
    requires SelectsBoth(n, p, q, both)
    ensures Select(n, both) == Keep(Select(n, p), q)
    decreases n
  {
    if n > 0 {
      SelectKeeps(n - 1, p, q, both);
      var before := Select(n - 1, p);
      if p(n - 1) {
        KeepOneMore(before, n - 1, q);
      } else {
        assert before + [] == before;
      }
    }
  }

  /** The asked-for versions, and those among them whose flag differs from the one asked for. */
  function NamedIds(versions: seq<Version>, wanted: map<nat, bool>): seq<nat>
  {
    Select(|versions|, (i: nat) => i in wanted)
  }

  function Flips(versions: seq<Version>, wanted: map<nat, bool>): nat -> bool
  {
    (i: nat) => i < |versions| && i in wanted && wanted[i] != versions[i].resignRequired
  }

  lemma FlippedAreKept(versions: seq<Version>, wanted: map<nat, bool>)
    ensures FlippedIds(versions, wanted) == Keep(NamedIds(versions, wanted), Flips(versions, wanted))
  {
    SelectKeeps(|versions|, (i: nat) => i in wanted, Flips(versions, wanted), Flips(versions, wanted));
  }

  lemma {:induction false} KeptAreFlips(versions: seq<Version>, wanted: map<nat, bool>, ids: seq<nat>)
    ensures forall i :: i in Keep(ids, Flips(versions, wanted)) ==> i in ids && i < |versions| && i in wanted
    decreases |ids|
  {
    if ids != [] {
      KeptAreFlips(versions, wanted, ids[..|ids| - 1]);
      assert ids == ids[..|ids| - 1] + [ids[|ids| - 1]];
    }
  }

  function ChangesOf(versions: seq<Version>, wanted: map<nat, bool>, ids: seq<nat>): seq<ResignChange>
  {
    KeptAreFlips(versions, wanted, ids);
    ResignChanges(versions, wanted, Keep(ids, Flips(versions, wanted)))
  }

  lemma ChangesOneMore(versions: seq<Version>, wanted: map<nat, bool>, ids: seq<nat>, id: nat)
    requires id < |versions| && id in wanted
    ensures ChangesOf(versions, wanted, ids + [id]) == ChangesOf(versions, wanted, ids) +
      if wanted[id] != versions[id].resignRequired then [ResignChange(id, versions[id].number, wanted[id])] else []
  {
    var q := Flips(versions, wanted);
    KeepOneMore(ids, id, q);
    KeptAreFlips(versions, wanted, ids);
    KeptAreFlips(versions, wanted, ids + [id]);
    var kept := Keep(ids, q);
    if q(id) {
      assert ResignChanges(versions, wanted, kept + [id]) ==
        ResignChanges(versions, wanted, kept) + [ResignChange(id, versions[id].number, wanted[id])];
    } else {
      assert Keep(ids + [id], q) == kept;
    }
  }

  /** Marking the current version is refused. */
  predicate MarksCurrent(t: Tables, wanted: map<nat, bool>, id: nat)
  {
    id in wanted && id < |t.versions| && wanted[id] && CurrentOf(t, t.versions[id].kind) == Some(id)
  }

  /** The real changes among those asked for, in order; `None` when one would mark the current version. */
  method CollectChanges(t: Tables, wanted: map<nat, bool>) returns (r: Option<seq<ResignChange>>)
    ensures r.None? ==> exists i :: MarksCurrent(t, wanted, i)
    ensures r.Some? ==> (forall i :: !MarksCurrent(t, wanted, i)) && r.value == ChangesOf(t.versions, wanted, NamedIds(t.versions, wanted))
  {
    var versions := NamedIds(t.versions, wanted);
    var applied: seq<ResignChange> := [];
    for k := 0 to |versions|
      invariant applied == ChangesOf(t.versions, wanted, versions[..k])
      invariant forall j :: 0 <= j < k ==> !MarksCurrent(t, wanted, versions[j])
    {
      var v := versions[k];
      assert v in versions;
      assert versions[..k + 1] == versions[..k] + [v];
      ChangesOneMore(t.versions, wanted, versions[..k], v);
      if MarksCurrent(t, wanted, v) {
        return None;
      }
      if wanted[v] == t.versions[v].resignRequired {
        continue;
      }
      applied := applied + [ResignChange(v, t.versions[v].number, wanted[v])];
    }
    assert versions[..|versions|] == versions;
    forall i | i in versions ensures !MarksCurrent(t, wanted, i) {
      var j :| 0 <= j < |versions| && versions[j] == i;
    }
    r := Some(applied);
  }

  predicate OneKind(versions: seq<Version>, wanted: map<nat, bool>)
  {
    (forall i :: i in wanted ==> i < |versions|) &&
    (forall i, j :: i in wanted && j in wanted ==> versions[i].kind == versions[j].kind)
  }

  lemma RefusesCurrent(t: Tables, changes: seq<(nat, bool)>)
    requires OneKind(t.versions, WantedFlags(changes)) && exists i :: MarksCurrent(t, WantedFlags(changes), i)
    ensures SetResignChange(t, changes) == Failure(CurrentVersion)
  {
  }

  function FlagChange(t: Tables, wanted: map<nat, bool>, ids: seq<nat>): Change
    requires ids != [] && ids[0] < |t.versions| && forall i :: i in ids ==> i < |t.versions| && i in wanted
  {
    Change(t.(versions := ApplyFlags(t.versions, wanted)),
           [ResignSet(t.versions[ids[0]].kind, ResignChanges(t.versions, wanted, ids))])
  }

  lemma AppliesFlips(t: Tables, changes: seq<(nat, bool)>)
    requires OneKind(t.versions, WantedFlags(changes)) && forall i :: !MarksCurrent(t, WantedFlags(changes), i)
    ensures SetResignChange(t, changes).Success?
    ensures var wanted := WantedFlags(changes); var ids := FlippedIds(t.versions, wanted);
      var c := SetResignChange(t, changes).value;
      (ids == [] ==> c == Change(t, [])) && (ids != [] ==> ids[0] < |t.versions| && c == FlagChange(t, wanted, ids))
  {
    var wanted := WantedFlags(changes);
    var ids := FlippedIds(t.versions, wanted);
    assert !exists i :: i in wanted && i >= |t.versions|;
    forall i | i in wanted ensures !(wanted[i] && CurrentOf(t, t.versions[i].kind) == Some(i)) {
      assert !MarksCurrent(t, wanted, i);
    }
    if ids != [] { assert ids[0] in ids; }
  }

  lemma FirstApplied(versions: seq<Version>, wanted: map<nat, bool>)
    requires FlippedIds(versions, wanted) != []
    ensures var ids := FlippedIds(versions, wanted);
      ResignChanges(versions, wanted, ids)[0].versionId == ids[0] < |versions|
  {
    assert FlippedIds(versions, wanted)[0] in FlippedIds(versions, wanted);
  }

  lemma ChangesApply(versions: seq<Version>, wanted: map<nat, bool>)
    ensures var ids := FlippedIds(versions, wanted);
      ChangesOf(versions, wanted, NamedIds(versions, wanted)) == ResignChanges(versions, wanted, ids)
  {
    FlippedAreKept(versions, wanted);
  }

  /** Reported are those whose signature is on a version whose flag changed, in either direction. */
  ghost predicate ReportsFlips(found: Tables, wanted: map<nat, bool>, rows: Tables, affected: set<int>)
  {
    var ids := FlippedIds(found.versions, wanted);
    if ids == [] then affected == {}
    else ids[0] < |found.versions| && affected == ActiveSigners(rows, found.versions[ids[0]].kind, ids)
  }

  /** One call marks and unmarks versions of one kind; only real changes are applied and recorded. */
  method SetResignTx(found: Tables, changes: seq<(nat, bool)>) returns (r: Result<Tx, ClaError>, affected: set<int>)
    ensures Does(found, false, SetResign(changes), r)
    ensures r.Success? ==> ReportsFlips(found, WantedFlags(changes), r.value.rows, affected)
  {
    affected := {};
    var byId := WantedFlags(changes);
    if exists i :: i in byId && i >= |found.versions| {
      return Failure(UnknownVersion), {};
    }
    if exists i, j :: i in byId && j in byId && found.versions[i].kind != found.versions[j].kind {
      return Failure(MixedKinds), {};
    }
    var applied := CollectChanges(found, byId);
    if applied == None {
      RefusesCurrent(found, changes);
      return Failure(CurrentVersion), {};
    }
    AppliesFlips(found, changes);
    ChangesApply(found.versions, byId);
    if applied.value == [] {
      return Success(Tx(found, [])), {};
    }
    ResignsApplyFlags(found.versions, byId);
    FirstApplied(found.versions, byId);
    var kind := found.versions[applied.value[0].versionId].kind;
    var versions := ApplyChanges(found.versions, applied.value);
    var rows := found.(versions := versions);
    affected := ActiveSigners(rows, kind, FlippedIds(found.versions, byId));
    r := Success(Tx(rows, [ResignSet(kind, applied.value)]));
  }

  method ApplyChanges(versions: seq<Version>, changes: seq<ResignChange>) returns (r: seq<Version>)
    ensures r == ApplyResigns(versions, changes)
  {
    r := versions;
    for k := 0 to |changes|
      invariant r == ApplyResigns(versions, changes[..k])
    {
      var c := changes[k];
      assert changes[..k + 1][..k] == changes[..k];
      if c.versionId < |r| {
        r := r[c.versionId := r[c.versionId].(resignRequired := c.resignRequired)];
      }
    }
    assert changes[..|changes|] == changes;
  }

  // ---- rosters ----

  /** What the loop over the entries has done after `k` of them. */
  ghost predicate AddedSoFar(
    first: seq<Member>, corporateId: nat, entries: seq<RosterEntry>, k: nat, roster: seq<Member>, events: seq<Event>)
    requires k <= |entries|
  {
    AddEntries(first, corporateId, entries[..k]) == (roster, events)
  }

  lemma EntrySkipped(first: seq<Member>, corporateId: nat, entries: seq<RosterEntry>, k: nat, roster: seq<Member>, events: seq<Event>)
    requires k < |entries| && AddedSoFar(first, corporateId, entries, k, roster, events)
    requires IsDisputed(roster, corporateId, Lower(Trim(entries[k].ghLogin)), entries[k].ghId)
    ensures AddedSoFar(first, corporateId, entries, k + 1, roster, events)
  {
    assert entries[..k + 1][..k] == entries[..k];
  }

  lemma EntryAdded(first: seq<Member>, corporateId: nat, entries: seq<RosterEntry>, k: nat, roster: seq<Member>, events: seq<Event>)
    requires k < |entries| && AddedSoFar(first, corporateId, entries, k, roster, events)
    requires !IsDisputed(roster, corporateId, Lower(Trim(entries[k].ghLogin)), entries[k].ghId)
    ensures var login := Lower(Trim(entries[k].ghLogin));
      AddedSoFar(first, corporateId, entries, k + 1, roster + [Member(corporateId, login, entries[k].ghId, Listed)],
                 events + [RosterAdded(|roster|, corporateId, login, entries[k].ghId)])
  {
    assert entries[..k + 1][..k] == entries[..k];
  }

  /** The trimmed logins of the entries that this company's roster disputes, by account or login. */
  function DisputedNames(roster: seq<Member>, corporateId: nat, entries: seq<RosterEntry>): seq<Text>
  {
    if entries == [] then []
    else
      var e := entries[|entries| - 1];
      DisputedNames(roster, corporateId, entries[..|entries| - 1]) +
      if IsDisputed(roster, corporateId, Lower(Trim(e.ghLogin)), e.ghId) then [Trim(e.ghLogin)] else []
  }

  /** Rows added on the way dispute nothing. */
  lemma AddingDisputesNothing(
    first: seq<Member>, corporateId: nat, entries: seq<RosterEntry>, k: nat, roster: seq<Member>, events: seq<Event>,
    login: Text, ghId: Option<int>)
    requires k <= |entries| && AddedSoFar(first, corporateId, entries, k, roster, events)
    ensures IsDisputed(roster, corporateId, login, ghId) <==> IsDisputed(first, corporateId, login, ghId)
  {
    AddEntriesAre(first, corporateId, entries[..k]);
    forall m | m in roster && m.status == Disputed ensures m in first {
      var i :| 0 <= i < |roster| && roster[i] == m;
      assert i < |first| && first[i] == m;
    }
    forall m | m in first ensures m in roster {
      var i :| 0 <= i < |first| && first[i] == m;
      assert roster[i] == m;
    }
  }

  lemma NamesOneMore(roster: seq<Member>, corporateId: nat, entries: seq<RosterEntry>, k: nat)
    requires k < |entries|
    ensures DisputedNames(roster, corporateId, entries[..k + 1]) == DisputedNames(roster, corporateId, entries[..k]) +
      if IsDisputed(roster, corporateId, Lower(Trim(entries[k].ghLogin)), entries[k].ghId) then [Trim(entries[k].ghLogin)] else []
  {
    assert entries[..k + 1][..k] == entries[..k];
  }

  /** Entries in turn; exactly those whose account or login the roster found disputes are skipped. */
  method AddRosterTx(found: Tables, corporateId: nat, entries: seq<RosterEntry>)
    returns (r: Result<Tx, ClaError>, added: seq<nat>, skippedDisputed: seq<Text>)
    ensures Does(found, false, AddRoster(corporateId, entries), r)
    ensures r.Success? ==> |added| + |skippedDisputed| == |entries| && |added| == |r.value.events|
    ensures r.Success? ==> skippedDisputed == DisputedNames(found.roster, corporateId, entries)
    ensures r.Success? ==> forall i :: 0 <= i < |added| ==> added[i] == |found.roster| + i
  {
    if corporateId >= |found.corporates| {
      return Failure(NotFound), [], [];
    }
    var roster, events;
    roster, events, added, skippedDisputed := AddEach(found.roster, corporateId, entries);
    r := Success(Tx(found.(roster := roster), events));
  }

  method AddEach(first: seq<Member>, corporateId: nat, entries: seq<RosterEntry>)
    returns (roster: seq<Member>, events: seq<Event>, added: seq<nat>, skippedDisputed: seq<Text>)
    ensures AddEntries(first, corporateId, entries) == (roster, events)
    ensures |added| + |skippedDisputed| == |entries| && |added| == |events|
    ensures skippedDisputed == DisputedNames(first, corporateId, entries)
    ensures forall i :: 0 <= i < |added| ==> added[i] == |first| + i
  {
    roster, events, added, skippedDisputed := first, [], [], [];
    for k := 0 to |entries|
      invariant AddedSoFar(first, corporateId, entries, k, roster, events)
      invariant |added| + |skippedDisputed| == k && |added| == |events| && |roster| == |first| + |events|
      invariant skippedDisputed == DisputedNames(first, corporateId, entries[..k])
      invariant forall i :: 0 <= i < |added| ==> added[i] == |first| + i
    {
      var entry := entries[k];
      var ghLogin := Lower(Trim(entry.ghLogin));
      AddingDisputesNothing(first, corporateId, entries, k, roster, events, ghLogin, entry.ghId);
      NamesOneMore(first, corporateId, entries, k);
      if IsDisputed(roster, corporateId, ghLogin, entry.ghId) {
        EntrySkipped(first, corporateId, entries, k, roster, events);
        skippedDisputed := skippedDisputed + [Trim(entry.ghLogin)];
        continue;
      }
      EntryAdded(first, corporateId, entries, k, roster, events);
      events := events + [RosterAdded(|roster|, corporateId, ghLogin, entry.ghId)];
      added := added + [|roster|];
      roster := roster + [Member(corporateId, ghLogin, entry.ghId, Listed)];
    }
    assert entries[..|entries|] == entries;
  }

  // ---- companies ----

  /** The accounts of a company's listed rows that carry one. */
  function ListedMembers(roster: seq<Member>, corporateId: nat): set<int>
  {
    set i | 0 <= i < |roster| && roster[i].corporateId == corporateId && roster[i].status == Listed && roster[i].ghId.Some?
      :: roster[i].ghId.value
  }

  // ---- the project ----

  /** The state after a call is the step's, and the error reported is the one the step has. */
  ghost predicate Follows(before: State, op: Op, after: State, error: Option<ClaError>)
  {
    after == Step(before, op) &&
    error == match Attempted(before, op) case Success(_) => None case Failure(e) => Some(e)
  }

  function Committed(s: State, tx: Tx): State
  {
    s.(tables := tx.rows, log := s.log + tx.events, startedPending := s.startedPending +
      if |tx.rows.corporates| > |s.tables.corporates| then [s.requiresApproval] else [])
  }

  lemma TxFollows(s: State, op: Op, r: Result<Tx, ClaError>)
    requires !op.SetApproval? && Does(s.tables, s.requiresApproval, op, r)
    ensures r.Failure? ==> Follows(s, op, s, Some(r.error))
    ensures r.Success? && s.moved && r.value.events != [] ==> Follows(s, op, s, Some(InLegal))
    ensures r.Success? && !(s.moved && r.value.events != []) ==> Follows(s, op, Committed(s, r.value), None)
  {
  }

  ghost predicate RecordedSoFar(before: seq<Event>, events: seq<Event>, k: nat, log: seq<Event>)
  {
    k <= |events| && log == before + events[..k]
  }

  lemma OneMoreRecorded(before: seq<Event>, events: seq<Event>, k: nat)
    requires k < |events|
    ensures RecordedSoFar(before, events, k + 1, before + events[..k] + [events[k]])
  {
    assert events[..k + 1] == events[..k] + [events[k]];
    Assoc(before, events[..k], [events[k]]);
  }

  lemma NoneRecorded(before: seq<Event>, events: seq<Event>, log: seq<Event>)
    ensures RecordedSoFar(before, events, 0, log) ==> log == before
    ensures RecordedSoFar(before, events, |events|, log) ==> log == before + events
  {
    assert before + [] == before;
  }

  class ClaProject {
    const hash: Hash
    const id: Text
    var rows: Tables
    var requiresApproval: bool
    /** Set once the records are in Legal. */
    var enrolled: bool
    var chain: seq<Entry>
    ghost var log: seq<Event>
    ghost var startedPending: seq<bool>

    constructor (hash: Hash, id: Text, requiresApproval: bool)
      ensures Valid() && Abs() == Initial(requiresApproval) && this.hash == hash && this.id == id
    {
      this.hash, this.id, this.requiresApproval, this.enrolled, this.chain := hash, id, requiresApproval, false, [];
      this.rows, this.log, this.startedPending := EMPTY, [], [];
    }

    ghost function Abs(): State
      reads this
    {
      State(rows, log, enrolled, requiresApproval, startedPending, {})
    }

    /** The stored chain is the chain of what was recorded. */
    ghost predicate Valid()
      reads this
    {
      chain == ChainOf(hash, id, log)
    }

    /** The entry's number; refused once the project is in Legal. The first append writes the genesis entry before it. */
    method AppendClaEvent(kind: Text, payload: Json, links: Links) returns (r: Result<int, ClaError>)
      modifies this`chain
      ensures enrolled ==> r == Failure(InLegal) && chain == old(chain)
      ensures !enrolled ==> chain == Append(hash, id, old(chain), kind, payload, links)
      ensures !enrolled ==> r.Success? && chain[|chain| - 1].seqNo == r.value
    {
      if enrolled {
        return Failure(InLegal);
      }
      var prevHash: Text;
      var seqNo: int;
      if chain == [] {
        var genesisPayload := Obj([(PROJECT_ID_KEY, Str(id))]);
        var genesisHash := ComputeEntryHash(hash, 0, id, GENESIS_KIND, GENESIS_PREV, genesisPayload);
        chain := [Entry(0, GENESIS_KIND, Stringify(genesisPayload), GENESIS_PREV, genesisHash, NO_LINKS)];
        prevHash, seqNo := genesisHash, 1;
      } else {
        var last := chain[|chain| - 1];
        prevHash, seqNo := last.entryHash, last.seqNo + 1;
      }
      var entryHash := ComputeEntryHash(hash, seqNo, id, kind, prevHash, payload);
      chain := chain + [Entry(seqNo, kind, Stringify(payload), prevHash, entryHash, links)];
      r := Success(seqNo);
    }

    method Record(e: Event) returns (refused: bool)
      requires Valid()
      modifies this`chain, this`log
      ensures Valid() && refused == enrolled
      ensures log == if refused then old(log) else old(log) + [e]
      ensures refused ==> chain == old(chain)
    {
      var r := AppendClaEvent(KindText(KindOf(e)), Encode(e), LinksOf(e));
      refused := r.Failure?;
      if !refused {
        assert (log + [e])[..|log|] == log;
        log := log + [e];
      }
    }

    method RecordAll(events: seq<Event>) returns (refused: bool)
      requires Valid()
      modifies this`chain, this`log
      ensures Valid() && refused == (enrolled && events != [])
      ensures log == if refused then old(log) else old(log) + events
      ensures refused ==> chain == old(chain)
    {
      for k := 0 to |events|
        invariant Valid() && RecordedSoFar(old(log), events, k, log)
        invariant enrolled ==> k == 0 && chain == old(chain)
      {
        refused := Record(events[k]);
        if refused {
          NoneRecorded(old(log), events, log);
          return;
        }
        OneMoreRecorded(old(log), events, k);
      }
      NoneRecorded(old(log), events, log);
      refused := false;
    }

    /** What a transaction recorded and its rows become the project's, or nothing does. */
    method Commit(tx: Tx) returns (refused: bool)
      requires Valid()
      modifies this
      ensures Valid() && refused == (old(enrolled) && tx.events != [])
      ensures Abs() == if refused then old(Abs()) else Committed(old(Abs()), tx)
    {
      refused := RecordAll(tx.events);
      if !refused {
        startedPending := startedPending + if |tx.rows.corporates| > |rows.corporates| then [requiresApproval] else [];
        rows := tx.rows;
      }
    }

    method Conclude(r: Result<Tx, ClaError>, ghost op: Op) returns (error: Option<ClaError>)
      requires Valid() && !op.SetApproval? && Does(rows, requiresApproval, op, r)
      modifies this
      ensures Valid() && Follows(old(Abs()), op, Abs(), error)
      ensures error == None ==> r.Success? && rows == r.value.rows
    {
      TxFollows(Abs(), op, r);
      if r.Failure? {
        return Some(r.error);
      }
      var refused := Commit(r.value);
      error := if refused then Some(InLegal) else None;
    }

    /** The accounts returned are those whose signature the publish made stale; none when it is refused. */
    method PublishClaVersion(kind: DocKind, requireResign: bool, resignIds: seq<nat>)
      returns (error: Option<ClaError>, version: nat, affected: set<int>)
      requires Valid()
      modifies this
      ensures Valid() && Follows(old(Abs()), Publish(kind, requireResign, resignIds), Abs(), error)
      ensures error == None ==> rows.versions[old(|rows.versions|)..] == [Version(kind, version, false)]
      ensures error == None ==> affected == ActiveSigners(rows, kind, StaleIds(old(rows.versions), kind, requireResign, resignIds))
    {
      var tx;
      tx, version, affected := PublishTx(rows, kind, requireResign, resignIds);
      error := Conclude(Success(tx), Publish(kind, requireResign, resignIds));
    }

    method SetVersionResign(changes: seq<(nat, bool)>) returns (error: Option<ClaError>, affected: set<int>)
      requires Valid()
      modifies this
      ensures Valid() && Follows(old(Abs()), SetResign(changes), Abs(), error)
      ensures error == None ==> ReportsFlips(old(rows), WantedFlags(changes), rows, affected)
    {
      var r;
      r, affected := SetResignTx(rows, changes);
      error := Conclude(r, SetResign(changes));
    }

    method RecordIclaSignature(ghId: int, ghLogin: Text) returns (error: Option<ClaError>)
      requires Valid()
      modifies this
      ensures Valid() && Follows(old(Abs()), SignIcla(ghId, ghLogin), Abs(), error)
    {
      if rows.currentIcla == None {
        return Some(NoVersionPublished);
      }
      var version := rows.currentIcla.value;
      if version >= |rows.versions| || rows.versions[version].kind != Icla {
        return Some(InvalidVersion);
      }
      var sig := |rows.signatures|;
      var after := rows.(signatures := rows.signatures + [Signature(Icla, version, ghId, ghLogin, true)]);
      error := Conclude(Success(Tx(after, [IclaSigned(sig, version, ghId, ghLogin)])), SignIcla(ghId, ghLogin));
    }

    method RecordCclaSignature(ghId: int, ghLogin: Text) returns (error: Option<ClaError>)
      requires Valid()
      modifies this
      ensures Valid() && Follows(old(Abs()), SignCcla(ghId, ghLogin), Abs(), error)
    {
      if rows.currentCcla == None {
        return Some(NoVersionPublished);
      }
      var initialStatus := if requiresApproval then Pending else Effective;
      var version := rows.currentCcla.value;
      if version >= |rows.versions| || rows.versions[version].kind != Ccla {
        return Some(InvalidVersion);
      }
      var sig, corporate := |rows.signatures|, |rows.corporates|;
      var after := rows.(signatures := rows.signatures + [Signature(Ccla, version, ghId, ghLogin, true)]);
      after := after.(corporates := after.corporates + [Corporate(version, sig, initialStatus)]);
      error := Conclude(Success(Tx(after, [CclaSigned(corporate, sig, version, ghId, ghLogin)])), SignCcla(ghId, ghLogin));
    }

    method ApproveCorporateCla(corporateId: nat) returns (error: Option<ClaError>, activeMembers: set<int>)
      requires Valid()
      modifies this
      ensures Valid() && Follows(old(Abs()), ApproveCorporate(corporateId), Abs(), error)
      ensures activeMembers == ListedMembers(old(rows.roster), corporateId)
    {
      activeMembers := ListedMembers(rows.roster, corporateId);
      if corporateId >= |rows.corporates| {
        return Some(NotFound), activeMembers;
      }
      var corporate := rows.corporates[corporateId];
      if corporate.status != Pending {
        return Some(WrongStatus), activeMembers;
      }
      var after := rows.(corporates := rows.corporates[corporateId := corporate.(status := Effective)]);
      error := Conclude(Success(Tx(after, [CclaApproved(corporateId)])), ApproveCorporate(corporateId));
    }

    method RejectCorporateCla(corporateId: nat) returns (error: Option<ClaError>)
      requires Valid()
      modifies this
      ensures Valid() && Follows(old(Abs()), RejectCorporate(corporateId), Abs(), error)
    {
      if corporateId >= |rows.corporates| {
        return Some(NotFound);
      }
      var corporate := rows.corporates[corporateId];
      if corporate.status != Pending {
        return Some(WrongStatus);
      }
      var after := rows.(corporates := rows.corporates[corporateId := corporate.(status := Rejected)]);
      error := Conclude(Success(Tx(after, [CclaRejected(corporateId)])), RejectCorporate(corporateId));
    }

    method RevokeCorporateCla(corporateId: nat) returns (error: Option<ClaError>, affected: set<int>)
      requires Valid()
      modifies this
      ensures Valid() && Follows(old(Abs()), RevokeCorporate(corporateId), Abs(), error)
      ensures affected == ListedMembers(old(rows.roster), corporateId)
    {
      affected := ListedMembers(rows.roster, corporateId);
      if corporateId >= |rows.corporates| {
        return Some(NotFound), affected;
      }
      var corporate := rows.corporates[corporateId];
      if corporate.status != Effective {
        return Some(WrongStatus), affected;
      }
      var after := rows.(corporates := rows.corporates[corporateId := corporate.(status := Withdrawn)]);
      error := Conclude(Success(Tx(after, [CclaRevoked(corporateId)])), RevokeCorporate(corporateId));
    }

    method AddRosterMembers(corporateId: nat, entries: seq<RosterEntry>)
      returns (error: Option<ClaError>, added: seq<nat>, skippedDisputed: seq<Text>)
      requires Valid()
      modifies this
      ensures Valid() && Follows(old(Abs()), AddRoster(corporateId, entries), Abs(), error)
      ensures error == None ==> |added| + |skippedDisputed| == |entries|
      ensures error == None ==> skippedDisputed == DisputedNames(old(rows.roster), corporateId, entries)
    {
      var r;
      r, added, skippedDisputed := AddRosterTx(rows, corporateId, entries);
      error := Conclude(r, AddRoster(corporateId, entries));
    }

    method RevokeRosterMember(memberId: nat) returns (error: Option<ClaError>)
      requires Valid()
      modifies this
      ensures Valid() && Follows(old(Abs()), RevokeMember(memberId), Abs(), error)
    {
      if memberId >= |rows.roster| {
        return Some(NotFound);
      }
      var m := rows.roster[memberId];
      if m.status == Removed {
        return Some(WrongStatus);
      }
      var after := rows.(roster := rows.roster[memberId := m.(status := Removed)]);
      error := Conclude(Success(Tx(after, [RosterRevoked(memberId, m.corporateId, m.ghLogin, m.ghId)])), RevokeMember(memberId));
    }

    method DisputeRosterMembership(memberId: nat) returns (error: Option<ClaError>)
      requires Valid()
      modifies this
      ensures Valid() && Follows(old(Abs()), DisputeMember(memberId), Abs(), error)
    {
      if memberId >= |rows.roster| {
        return Some(NotFound);
      }
      var m := rows.roster[memberId];
      if m.status == Disputed {
        return Some(WrongStatus);
      }
      var after := rows.(roster := rows.roster[memberId := m.(status := Disputed)]);
      error := Conclude(Success(Tx(after, [RosterDisputed(memberId, m.corporateId, m.ghLogin, m.ghId)])), DisputeMember(memberId));
    }

    method RevokeSignatureOf(signatureId: nat) returns (error: Option<ClaError>)
      requires Valid()
      modifies this
      ensures Valid() && Follows(old(Abs()), RevokeSignature(signatureId), Abs(), error)
    {
      if signatureId >= |rows.signatures| {
        return Some(NotFound);
      }
      var sig := rows.signatures[signatureId];
      if !sig.active {
        return Some(WrongStatus);
      }
      var after := rows.(signatures := rows.signatures[signatureId := sig.(active := false)]);
      error := Conclude(Success(Tx(after, [SignatureRevoked(signatureId, sig.ghId, sig.ghLogin)])), RevokeSignature(signatureId));
    }

    method GrantWaiverTo(login: Text, ghId: Option<int>) returns (error: Option<ClaError>)
      requires Valid()
      modifies this
      ensures Valid() && Follows(old(Abs()), GrantWaiver(login, ghId), Abs(), error)
    {
      var ghLogin, waiver := Lower(Trim(login)), |rows.waivers|;
      var after := rows.(waivers := rows.waivers + [Waiver(ghLogin, ghId, true)]);
      error := Conclude(Success(Tx(after, [WaiverGranted(waiver, ghLogin, ghId)])), GrantWaiver(login, ghId));
    }

    method RevokeWaiverOf(waiverId: nat) returns (error: Option<ClaError>)
      requires Valid()
      modifies this
      ensures Valid() && Follows(old(Abs()), RevokeWaiver(waiverId), Abs(), error)
    {
      if waiverId >= |rows.waivers| {
        return Some(NotFound);
      }
      var w := rows.waivers[waiverId];
      if !w.active {
        return Some(WrongStatus);
      }
      var after := rows.(waivers := rows.waivers[waiverId := w.(active := false)]);
      error := Conclude(Success(Tx(after, [WaiverRevoked(waiverId, w.ghLogin, w.ghId)])), RevokeWaiver(waiverId));
    }

    /** A project's own chain always verifies. */
    method Verify() returns (r: VerifyResult)
      requires Valid()
      ensures r == Intact(|chain|, Head(chain))
    {
      ChainOfLog(hash, id, log);
      r := VerifyChain(hash, id, chain);
    }
  }
}
