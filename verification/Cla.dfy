/**
 The tables of one project's CLA records, the events its ledger records, and the change
 each transaction makes. A row's id is its place in its table: rows are never deleted.
 */
module Cla {
  import opened Wrappers
  import opened Text

  datatype DocKind = Icla | Ccla

  datatype Version = Version(kind: DocKind, number: nat, resignRequired: bool)

  datatype Signature = Signature(kind: DocKind, versionId: nat, ghId: int, ghLogin: Text, active: bool)

  datatype CorporateStatus = Pending | Effective | Rejected | Withdrawn

  datatype Corporate = Corporate(versionId: nat, signatureId: nat, status: CorporateStatus)

  datatype MemberStatus = Listed | Removed | Disputed

  datatype Member = Member(corporateId: nat, ghLogin: Text, ghId: Option<int>, status: MemberStatus)

  datatype Waiver = Waiver(ghLogin: Text, ghId: Option<int>, active: bool)

  datatype Tables = Tables(
    versions: seq<Version>,
    signatures: seq<Signature>,
    corporates: seq<Corporate>,
    roster: seq<Member>,
    waivers: seq<Waiver>,
    currentIcla: Option<nat>,
    currentCcla: Option<nat>)

  const EMPTY := Tables([], [], [], [], [], None, None)

  function CurrentOf(t: Tables, kind: DocKind): Option<nat>
  {
    match kind case Icla => t.currentIcla case Ccla => t.currentCcla
  }

  function WithCurrent(t: Tables, kind: DocKind, id: nat): Tables
  {
    match kind case Icla => t.(currentIcla := Some(id)) case Ccla => t.(currentCcla := Some(id))
  }

  // ---- the ledger's events ----

  datatype ResignChange = ResignChange(versionId: nat, number: nat, resignRequired: bool)

  datatype Event =
    | DocPublished(versionId: nat, docKind: DocKind, number: nat, resignIds: seq<nat>)
    | ResignSet(docKind: DocKind, changes: seq<ResignChange>)
    | IclaSigned(signatureId: nat, versionId: nat, signerId: int, ghLogin: Text)
    | CclaSigned(corporateId: nat, signatureId: nat, versionId: nat, signerId: int, ghLogin: Text)
    | CclaApproved(corporateId: nat)
    | CclaRejected(corporateId: nat)
    | CclaRevoked(corporateId: nat)
    | RosterAdded(memberId: nat, corporateId: nat, ghLogin: Text, ghId: Option<int>)
    | RosterRevoked(memberId: nat, corporateId: nat, ghLogin: Text, ghId: Option<int>)
    | RosterDisputed(memberId: nat, corporateId: nat, ghLogin: Text, ghId: Option<int>)
    | SignatureRevoked(signatureId: nat, signerId: int, ghLogin: Text)
    | WaiverGranted(waiverId: nat, ghLogin: Text, ghId: Option<int>)
    | WaiverRevoked(waiverId: nat, ghLogin: Text, ghId: Option<int>)

  // ---- the transactions ----

  datatype RosterEntry = RosterEntry(ghLogin: Text, ghId: Option<int>)

  datatype Op =
    | Publish(kind: DocKind, requireResign: bool, resignIds: seq<nat>)
    | SetResign(resigns: seq<(nat, bool)>)
    | SignIcla(ghId: int, ghLogin: Text)
    | SignCcla(ghId: int, ghLogin: Text)
    | ApproveCorporate(corporateId: nat)
    | RejectCorporate(corporateId: nat)
    | RevokeCorporate(corporateId: nat)
    | AddRoster(corporateId: nat, entries: seq<RosterEntry>)
    | RevokeMember(memberId: nat)
    | DisputeMember(memberId: nat)
    | RevokeSignature(signatureId: nat)
    | GrantWaiver(ghLogin: Text, waived: Option<int>)
    | RevokeWaiver(waiverId: nat)
    | SetApproval(required: bool)

  datatype ClaError =
    | NotFound | UnknownVersion | MixedKinds | CurrentVersion | NoVersionPublished | InvalidVersion
    | WrongStatus | NumberTaken | InLegal

  /** What a transaction would commit: the new tables and the ledger events, oldest first. */
  datatype Change = Change(tables: Tables, events: seq<Event>)

  type Attempt = Result<Change, ClaError>

  /** The indices below `n` that satisfy `p`, ascending. */
  function Select(n: nat, p: nat -> bool): (ids: seq<nat>)
    ensures forall i: nat :: i in ids <==> i < n && p(i)
  {
    if n == 0 then [] else Select(n - 1, p) + (if p(n - 1) then [n - 1] else [])
  }

  /** The highest number a kind has, 0 when it has none. */
  function MaxNumber(versions: seq<Version>, kind: DocKind): nat
  {
    if versions == [] then 0
    else
      var rest := MaxNumber(versions[..|versions| - 1], kind);
      var last := versions[|versions| - 1];
      if last.kind == kind && last.number > rest then last.number else rest
  }

  function MarkResign(versions: seq<Version>, ids: seq<nat>): (r: seq<Version>)
    ensures |r| == |versions|
  {
    seq(|versions|, i requires 0 <= i < |versions| =>
      if i in ids then versions[i].(resignRequired := true) else versions[i])
  }

  function StaleIds(versions: seq<Version>, kind: DocKind, requireResign: bool, resignIds: seq<nat>): seq<nat>
  {
    Select(|versions|, (i: nat) => i < |versions| && versions[i].kind == kind && !versions[i].resignRequired
                            && (requireResign || i in resignIds))
  }

  function PublishChange(t: Tables, kind: DocKind, requireResign: bool, resignIds: seq<nat>): Change
  {
    var id := |t.versions|;
    var number := MaxNumber(t.versions, kind) + 1;
    var stale := StaleIds(t.versions, kind, requireResign, resignIds);
    var versions := MarkResign(t.versions, stale) + [Version(kind, number, false)];
    Change(WithCurrent(t.(versions := versions), kind, id), [DocPublished(id, kind, number, stale)])
  }

  /** The last change asked for a version wins. */
  function WantedFlags(resigns: seq<(nat, bool)>): map<nat, bool>
  {
    if resigns == [] then map[]
    else
      var last := resigns[|resigns| - 1];
      WantedFlags(resigns[..|resigns| - 1])[last.0 := last.1]
  }

  function ApplyFlags(versions: seq<Version>, wanted: map<nat, bool>): (r: seq<Version>)
    ensures |r| == |versions|
  {
    seq(|versions|, i requires 0 <= i < |versions| =>
      if i in wanted then versions[i].(resignRequired := wanted[i]) else versions[i])
  }

  function FlippedIds(versions: seq<Version>, wanted: map<nat, bool>): seq<nat>
  {
    Select(|versions|, (i: nat) => i < |versions| && i in wanted && wanted[i] != versions[i].resignRequired)
  }

  function ResignChanges(versions: seq<Version>, wanted: map<nat, bool>, ids: seq<nat>): (r: seq<ResignChange>)
    requires forall i :: i in ids ==> i < |versions| && i in wanted
    ensures |r| == |ids|
  {
    seq(|ids|, j requires 0 <= j < |ids| =>
      assert ids[j] in ids;
      ResignChange(ids[j], versions[ids[j]].number, wanted[ids[j]]))
  }

  /** The recorded changes, applied in turn. */
  function ApplyResigns(versions: seq<Version>, changes: seq<ResignChange>): (r: seq<Version>)
    ensures |r| == |versions|
  {
    if changes == [] then versions
    else
      var before := ApplyResigns(versions, changes[..|changes| - 1]);
      var c := changes[|changes| - 1];
      if c.versionId < |versions| then before[c.versionId := before[c.versionId].(resignRequired := c.resignRequired)]
      else before
  }

  function SetResignChange(t: Tables, resigns: seq<(nat, bool)>): Attempt
  {
    var wanted := WantedFlags(resigns);
    if exists i :: i in wanted && i >= |t.versions| then Failure(UnknownVersion)
    else if exists i, j :: i in wanted && j in wanted && t.versions[i].kind != t.versions[j].kind then Failure(MixedKinds)
    else if exists i :: i in wanted && wanted[i] && CurrentOf(t, t.versions[i].kind) == Some(i) then Failure(CurrentVersion)
    else
      var ids := FlippedIds(t.versions, wanted);
      if ids == [] then Success(Change(t, []))
      else
        assert ids[0] in ids;
        Success(Change(
        t.(versions := ApplyFlags(t.versions, wanted)),
        [ResignSet(t.versions[ids[0]].kind, ResignChanges(t.versions, wanted, ids))]))
  }

  function SignIclaChange(t: Tables, ghId: int, ghLogin: Text): Attempt
  {
    match t.currentIcla
    case None => Failure(NoVersionPublished)
    case Some(v) =>
      if v >= |t.versions| || t.versions[v].kind != Icla then Failure(InvalidVersion)
      else Success(Change(
        t.(signatures := t.signatures + [Signature(Icla, v, ghId, ghLogin, true)]),
        [IclaSigned(|t.signatures|, v, ghId, ghLogin)]))
  }

  function SignCclaChange(t: Tables, requiresApproval: bool, ghId: int, ghLogin: Text): Attempt
  {
    match t.currentCcla
    case None => Failure(NoVersionPublished)
    case Some(v) =>
      if v >= |t.versions| || t.versions[v].kind != Ccla then Failure(InvalidVersion)
      else
        var status := if requiresApproval then Pending else Effective;
        Success(Change(
          t.(signatures := t.signatures + [Signature(Ccla, v, ghId, ghLogin, true)],
             corporates := t.corporates + [Corporate(v, |t.signatures|, status)]),
          [CclaSigned(|t.corporates|, |t.signatures|, v, ghId, ghLogin)]))
  }

  function CorporateStatusChange(t: Tables, id: nat, from: CorporateStatus, to: CorporateStatus, event: Event): Attempt
  {
    if id >= |t.corporates| then Failure(NotFound)
    else if t.corporates[id].status != from then Failure(WrongStatus)
    else Success(Change(t.(corporates := t.corporates[id := t.corporates[id].(status := to)]), [event]))
  }

  /** The consent gate: a disputed row of this company, by account id or by login. */
  predicate IsDisputed(roster: seq<Member>, corporateId: nat, ghLogin: Text, ghId: Option<int>)
  {
    exists m :: m in roster && m.corporateId == corporateId && m.status == Disputed
      && ((ghId.Some? && m.ghId == ghId) || m.ghLogin == ghLogin)
  }

  function AddEntry(roster: seq<Member>, corporateId: nat, e: RosterEntry): Option<Member>
  {
    var login := Lower(Trim(e.ghLogin));
    if IsDisputed(roster, corporateId, login, e.ghId) then None
    else Some(Member(corporateId, login, e.ghId, Listed))
  }

  /** The roster after the entries, and one event for each that was not refused. */
  function AddEntries(roster: seq<Member>, corporateId: nat, entries: seq<RosterEntry>): (seq<Member>, seq<Event>)
  {
    if entries == [] then (roster, [])
    else
      var (before, events) := AddEntries(roster, corporateId, entries[..|entries| - 1]);
      match AddEntry(before, corporateId, entries[|entries| - 1])
      case None => (before, events)
      case Some(m) => (before + [m], events + [RosterAdded(|before|, corporateId, m.ghLogin, m.ghId)])
  }

  function AddRosterChange(t: Tables, corporateId: nat, entries: seq<RosterEntry>): Attempt
  {
    if corporateId >= |t.corporates| then Failure(NotFound)
    else
      var (roster, events) := AddEntries(t.roster, corporateId, entries);
      Success(Change(t.(roster := roster), events))
  }

  function MemberStatusChange(t: Tables, id: nat, to: MemberStatus): Attempt
    requires to != Listed
  {
    if id >= |t.roster| then Failure(NotFound)
    else
      var m := t.roster[id];
      if m.status == to then Failure(WrongStatus)
      else
        var event := if to == Removed then RosterRevoked(id, m.corporateId, m.ghLogin, m.ghId)
                     else RosterDisputed(id, m.corporateId, m.ghLogin, m.ghId);
        Success(Change(t.(roster := t.roster[id := m.(status := to)]), [event]))
  }

  function RevokeSignatureChange(t: Tables, id: nat): Attempt
  {
    if id >= |t.signatures| then Failure(NotFound)
    else
      var s := t.signatures[id];
      if !s.active then Failure(WrongStatus)
      else Success(Change(
        t.(signatures := t.signatures[id := s.(active := false)]), [SignatureRevoked(id, s.ghId, s.ghLogin)]))
  }

  function GrantWaiverChange(t: Tables, ghLogin: Text, ghId: Option<int>): Change
  {
    var login := Lower(Trim(ghLogin));
    Change(t.(waivers := t.waivers + [Waiver(login, ghId, true)]), [WaiverGranted(|t.waivers|, login, ghId)])
  }

  function RevokeWaiverChange(t: Tables, id: nat): Attempt
  {
    if id >= |t.waivers| then Failure(NotFound)
    else
      var w := t.waivers[id];
      if !w.active then Failure(WrongStatus)
      else Success(Change(
        t.(waivers := t.waivers[id := w.(active := false)]), [WaiverRevoked(id, w.ghLogin, w.ghId)]))
  }

  function ChangeOf(t: Tables, requiresApproval: bool, op: Op): Attempt
  {
    match op
    case Publish(kind, requireResign, ids) => Success(PublishChange(t, kind, requireResign, ids))
    case SetResign(resigns) => SetResignChange(t, resigns)
    case SignIcla(ghId, ghLogin) => SignIclaChange(t, ghId, ghLogin)
    case SignCcla(ghId, ghLogin) => SignCclaChange(t, requiresApproval, ghId, ghLogin)
    case ApproveCorporate(c) => CorporateStatusChange(t, c, Pending, Effective, CclaApproved(c))
    case RejectCorporate(c) => CorporateStatusChange(t, c, Pending, Rejected, CclaRejected(c))
    case RevokeCorporate(c) => CorporateStatusChange(t, c, Effective, Withdrawn, CclaRevoked(c))
    case AddRoster(c, entries) => AddRosterChange(t, c, entries)
    case RevokeMember(m) => MemberStatusChange(t, m, Removed)
    case DisputeMember(m) => MemberStatusChange(t, m, Disputed)
    case RevokeSignature(s) => RevokeSignatureChange(t, s)
    case GrantWaiver(login, ghId) => Success(GrantWaiverChange(t, login, ghId))
    case RevokeWaiver(w) => RevokeWaiverChange(t, w)
    case SetApproval(_) => Success(Change(t, []))
  }

  // ---- what every transaction keeps ----

  function CountKind(versions: seq<Version>, kind: DocKind): nat
  {
    if versions == [] then 0
    else CountKind(versions[..|versions| - 1], kind) + if versions[|versions| - 1].kind == kind then 1 else 0
  }

  function LastOfKind(versions: seq<Version>, kind: DocKind): Option<nat>
  {
    if versions == [] then None
    else if versions[|versions| - 1].kind == kind then Some(|versions| - 1)
    else LastOfKind(versions[..|versions| - 1], kind)
  }

  /** The versions of a kind are numbered 1, 2, ... in the order they were published. */
  ghost predicate Numbered(versions: seq<Version>)
  {
    forall i :: 0 <= i < |versions| ==> versions[i].number == CountKind(versions[..i + 1], versions[i].kind)
  }

  ghost predicate CurrentIsNewest(t: Tables, kind: DocKind)
  {
    CurrentOf(t, kind) == LastOfKind(t.versions, kind) &&
    (CurrentOf(t, kind).Some? ==>
      var v := CurrentOf(t, kind).value;
      v < |t.versions| && t.versions[v].kind == kind && !t.versions[v].resignRequired
      && t.versions[v].number == CountKind(t.versions, kind))
  }

  ghost predicate SignatureRefers(t: Tables, s: Signature)
  {
    s.versionId < |t.versions| && t.versions[s.versionId].kind == s.kind
  }

  ghost predicate CorporateRefers(t: Tables, c: Corporate)
  {
    c.signatureId < |t.signatures| &&
    t.signatures[c.signatureId].kind == Ccla && t.signatures[c.signatureId].versionId == c.versionId
  }

  ghost predicate References(t: Tables)
  {
    (forall i :: 0 <= i < |t.signatures| ==> SignatureRefers(t, t.signatures[i])) &&
    (forall i :: 0 <= i < |t.corporates| ==> CorporateRefers(t, t.corporates[i])) &&
    (forall i :: 0 <= i < |t.roster| ==> t.roster[i].corporateId < |t.corporates|)
  }

  ghost predicate Inv(t: Tables)
  {
    Numbered(t.versions) && CurrentIsNewest(t, Icla) && CurrentIsNewest(t, Ccla) && References(t)
  }

  lemma {:induction false} MaxIsCount(versions: seq<Version>, kind: DocKind)
    requires Numbered(versions)
    ensures MaxNumber(versions, kind) == CountKind(versions, kind)
    decreases |versions|
  {
    if versions != [] {
      var init := versions[..|versions| - 1];
      assert versions[..|versions|] == versions;
      forall i | 0 <= i < |init| ensures init[i].number == CountKind(init[..i + 1], init[i].kind) {
        assert init[..i + 1] == versions[..i + 1];
      }
      MaxIsCount(init, kind);
    }
  }

  /** Re-sign flags change neither the numbering nor which version is newest. */
  lemma {:induction false} FlagsDoNotCount(a: seq<Version>, b: seq<Version>, kind: DocKind)
    requires |a| == |b| && forall i :: 0 <= i < |a| ==> a[i].kind == b[i].kind && a[i].number == b[i].number
    ensures CountKind(a, kind) == CountKind(b, kind) && LastOfKind(a, kind) == LastOfKind(b, kind)
    decreases |a|
  {
    if a != [] {
      FlagsDoNotCount(a[..|a| - 1], b[..|b| - 1], kind);
    }
  }

  lemma FlagsKeepNumbered(a: seq<Version>, b: seq<Version>)
    requires |a| == |b| && forall i :: 0 <= i < |a| ==> a[i].kind == b[i].kind && a[i].number == b[i].number
    requires Numbered(a)
    ensures Numbered(b)
  {
    forall i | 0 <= i < |b| ensures b[i].number == CountKind(b[..i + 1], b[i].kind) {
      FlagsDoNotCount(a[..i + 1], b[..i + 1], b[i].kind);
    }
  }

  lemma OneMoreNumbered(versions: seq<Version>, v: Version)
    requires Numbered(versions) && v.number == CountKind(versions, v.kind) + 1
    ensures Numbered(versions + [v])
  {
    var all, n := versions + [v], |versions|;
    assert all[..n] == versions && all[..n + 1] == all;
    forall i | 0 <= i < n + 1 ensures all[i].number == CountKind(all[..i + 1], all[i].kind) {
      if i < n { assert all[..i + 1] == versions[..i + 1]; }
    }
  }

  lemma MarkingKeepsNumbers(versions: seq<Version>, ids: seq<nat>, kind: DocKind)
    requires Numbered(versions)
    ensures Numbered(MarkResign(versions, ids)) && CountKind(MarkResign(versions, ids), kind) == MaxNumber(versions, kind)
  {
    FlagsKeepNumbered(versions, MarkResign(versions, ids));
    FlagsDoNotCount(versions, MarkResign(versions, ids), kind);
    MaxIsCount(versions, kind);
  }

  lemma PublishKeepsNumbers(t: Tables, kind: DocKind, requireResign: bool, ids: seq<nat>)
    requires Numbered(t.versions)
    ensures Numbered(PublishChange(t, kind, requireResign, ids).tables.versions)
  {
    var stale := StaleIds(t.versions, kind, requireResign, ids);
    MarkingKeepsNumbers(t.versions, stale, kind);
    OneMoreNumbered(MarkResign(t.versions, stale), Version(kind, MaxNumber(t.versions, kind) + 1, false));
  }

  /** Publishing touches no version of the other kind, and marks only versions of its own. */
  lemma PublishedVersions(t: Tables, kind: DocKind, requireResign: bool, ids: seq<nat>, k: DocKind)
    requires Numbered(t.versions)
    ensures var versions := PublishChange(t, kind, requireResign, ids).tables.versions;
      var n := |t.versions|;
      |versions| == n + 1 && versions[n].kind == kind && !versions[n].resignRequired &&
      versions[n].number == CountKind(versions, kind) &&
      (forall i :: 0 <= i < n ==> versions[i] == t.versions[i] || (versions[i].kind == kind == t.versions[i].kind)) &&
      (k != kind ==> CountKind(versions, k) == CountKind(t.versions, k)) &&
      LastOfKind(versions, k) == if k == kind then Some(n) else LastOfKind(t.versions, k)
  {
    var marked := MarkResign(t.versions, StaleIds(t.versions, kind, requireResign, ids));
    var versions := PublishChange(t, kind, requireResign, ids).tables.versions;
    assert versions[..|t.versions|] == marked;
    FlagsDoNotCount(t.versions, marked, k);
    FlagsDoNotCount(t.versions, marked, kind);
    MaxIsCount(t.versions, kind);
  }

  lemma PublishKeepsInv(t: Tables, kind: DocKind, requireResign: bool, ids: seq<nat>)
    requires Inv(t)
    ensures Inv(PublishChange(t, kind, requireResign, ids).tables)
  {
    var t' := PublishChange(t, kind, requireResign, ids).tables;
    PublishKeepsNumbers(t, kind, requireResign, ids);
    PublishedVersions(t, kind, requireResign, ids, Icla);
    PublishedVersions(t, kind, requireResign, ids, Ccla);
    assert References(t') by {
      assert References(t);
      assert t'.signatures == t.signatures && t'.corporates == t.corporates && t'.roster == t.roster;
      forall i | 0 <= i < |t'.signatures| ensures SignatureRefers(t', t'.signatures[i]) {
        assert SignatureRefers(t, t.signatures[i]);
      }
      forall i | 0 <= i < |t'.corporates| ensures CorporateRefers(t', t'.corporates[i]) {
        assert CorporateRefers(t, t.corporates[i]);
      }
    }
  }

  lemma {:induction false} AddEntriesAre(roster: seq<Member>, c: nat, entries: seq<RosterEntry>)
    ensures var (r, events) := AddEntries(roster, c, entries);
      roster <= r && |r| == |roster| + |events| &&
      (forall i :: |roster| <= i < |r| ==> r[i] == Member(c, r[i].ghLogin, r[i].ghId, Listed)) &&
      (forall i :: |roster| <= i < |r| ==> events[i - |roster|] == RosterAdded(i, c, r[i].ghLogin, r[i].ghId))
    decreases |entries|
  {
    if entries != [] {
      AddEntriesAre(roster, c, entries[..|entries| - 1]);
    }
  }

  /** Rows of the other tables may be added or change status; what they refer to stays. */
  lemma RowsKeepInv(t: Tables, t': Tables)
    requires Inv(t) && t'.versions == t.versions && t'.currentIcla == t.currentIcla && t'.currentCcla == t.currentCcla
    requires |t.signatures| <= |t'.signatures| && |t.corporates| <= |t'.corporates|
    requires forall i :: 0 <= i < |t.signatures| ==>
      t'.signatures[i].kind == t.signatures[i].kind && t'.signatures[i].versionId == t.signatures[i].versionId
    requires forall i :: |t.signatures| <= i < |t'.signatures| ==> SignatureRefers(t', t'.signatures[i])
    requires forall i :: 0 <= i < |t.corporates| ==>
      t'.corporates[i].versionId == t.corporates[i].versionId && t'.corporates[i].signatureId == t.corporates[i].signatureId
    requires forall i :: |t.corporates| <= i < |t'.corporates| ==> CorporateRefers(t', t'.corporates[i])
    requires forall i :: 0 <= i < |t'.roster| ==> t'.roster[i].corporateId < |t'.corporates|
    ensures Inv(t')
  {
    assert CurrentIsNewest(t, Icla) && CurrentIsNewest(t, Ccla);
    assert CurrentIsNewest(t', Icla) && CurrentIsNewest(t', Ccla);
    forall i | 0 <= i < |t.signatures| ensures SignatureRefers(t', t'.signatures[i]) {
      assert SignatureRefers(t, t.signatures[i]);
    }
    forall i | 0 <= i < |t.corporates| ensures CorporateRefers(t', t'.corporates[i]) {
      assert CorporateRefers(t, t.corporates[i]);
    }
  }
}
