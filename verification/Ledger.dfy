/**
 The ledger's events as the bytes the chain holds: JSON payloads, kinds and links. Decoding
 reads a payload by key, so it does not depend on the order of keys; decoding the chain of a
 log gives the log; and an accepted chain's head pins the whole history, hence the tables.
 */
module Ledger {
  import opened Wrappers
  import opened Text
  import opened Json
  import opened JsonParse
  import opened Canonical
  import opened Chain
  import opened Cla
  import opened Runs
  import opened Replay

  const KIND_KEY: Text := [107, 105, 110, 100] // kind
  const DOCUMENT_VERSION_ID_KEY: Text := [100, 111, 99, 117, 109, 101, 110, 116, 86, 101, 114, 115, 105, 111, 110, 73, 100] // documentVersionId
  const DOCUMENT_KIND_KEY: Text := [100, 111, 99, 117, 109, 101, 110, 116, 75, 105, 110, 100] // documentKind
  const VERSION_KEY: Text := [118, 101, 114, 115, 105, 111, 110] // version
  const RESIGN_VERSION_IDS_KEY: Text := [114, 101, 115, 105, 103, 110, 86, 101, 114, 115, 105, 111, 110, 73, 100, 115] // resignVersionIds
  const VERSIONS_KEY: Text := [118, 101, 114, 115, 105, 111, 110, 115] // versions
  const VERSION_ID_KEY: Text := [118, 101, 114, 115, 105, 111, 110, 73, 100] // versionId
  const RESIGN_REQUIRED_KEY: Text := [114, 101, 115, 105, 103, 110, 82, 101, 113, 117, 105, 114, 101, 100] // resignRequired
  const SIGNATURE_ID_KEY: Text := [115, 105, 103, 110, 97, 116, 117, 114, 101, 73, 100] // signatureId
  const CORPORATE_ID_KEY: Text := [99, 111, 114, 112, 111, 114, 97, 116, 101, 73, 100] // corporateId
  const ROSTER_MEMBER_ID_KEY: Text := [114, 111, 115, 116, 101, 114, 77, 101, 109, 98, 101, 114, 73, 100] // rosterMemberId
  const WAIVER_ID_KEY: Text := [119, 97, 105, 118, 101, 114, 73, 100] // waiverId
  const GH_ID_KEY: Text := [103, 104, 73, 100] // ghId
  const GH_LOGIN_KEY: Text := [103, 104, 76, 111, 103, 105, 110] // ghLogin

  const ICLA_SIGNED: Text := [105, 99, 108, 97, 46, 115, 105, 103, 110, 101, 100] // icla.signed
  const CCLA_SIGNED: Text := [99, 99, 108, 97, 46, 115, 105, 103, 110, 101, 100] // ccla.signed
  const CCLA_APPROVED: Text := [99, 99, 108, 97, 46, 97, 112, 112, 114, 111, 118, 101, 100] // ccla.approved
  const CCLA_REJECTED: Text := [99, 99, 108, 97, 46, 114, 101, 106, 101, 99, 116, 101, 100] // ccla.rejected
  const CCLA_REVOKED: Text := [99, 99, 108, 97, 46, 114, 101, 118, 111, 107, 101, 100] // ccla.revoked
  const DOC_PUBLISHED: Text := [100, 111, 99, 46, 112, 117, 98, 108, 105, 115, 104, 101, 100] // doc.published
  const DOC_RESIGN_SET: Text := [100, 111, 99, 46, 114, 101, 115, 105, 103, 110, 95, 115, 101, 116] // doc.resign_set
  const ROSTER_ADDED: Text := [114, 111, 115, 116, 101, 114, 46, 97, 100, 100, 101, 100] // roster.added
  const ROSTER_REVOKED: Text := [114, 111, 115, 116, 101, 114, 46, 114, 101, 118, 111, 107, 101, 100] // roster.revoked
  const ROSTER_DISPUTED: Text := [114, 111, 115, 116, 101, 114, 46, 100, 105, 115, 112, 117, 116, 101, 100] // roster.disputed
  const SIGNATURE_REVOKED: Text := [115, 105, 103, 110, 97, 116, 117, 114, 101, 46, 114, 101, 118, 111, 107, 101, 100] // signature.revoked
  const WAIVER_GRANTED: Text := [119, 97, 105, 118, 101, 114, 46, 103, 114, 97, 110, 116, 101, 100] // waiver.granted
  const WAIVER_REVOKED: Text := [119, 97, 105, 118, 101, 114, 46, 114, 101, 118, 111, 107, 101, 100] // waiver.revoked

  const ICLA_TEXT: Text := [73, 67, 76, 65]
  const CCLA_TEXT: Text := [67, 67, 76, 65]

  function DocKindText(k: DocKind): Text { match k case Icla => ICLA_TEXT case Ccla => CCLA_TEXT }

  datatype EventKind =
    | IclaSignedKind
    | CclaSignedKind
    | CclaApprovedKind
    | CclaRejectedKind
    | CclaRevokedKind
    | DocPublishedKind
    | DocResignSetKind
    | RosterAddedKind
    | RosterRevokedKind
    | RosterDisputedKind
    | SignatureRevokedKind
    | WaiverGrantedKind
    | WaiverRevokedKind

  function KindText(k: EventKind): Text
  {
    match k
    case IclaSignedKind => ICLA_SIGNED
    case CclaSignedKind => CCLA_SIGNED
    case CclaApprovedKind => CCLA_APPROVED
    case CclaRejectedKind => CCLA_REJECTED
    case CclaRevokedKind => CCLA_REVOKED
    case DocPublishedKind => DOC_PUBLISHED
    case DocResignSetKind => DOC_RESIGN_SET
    case RosterAddedKind => ROSTER_ADDED
    case RosterRevokedKind => ROSTER_REVOKED
    case RosterDisputedKind => ROSTER_DISPUTED
    case SignatureRevokedKind => SIGNATURE_REVOKED
    case WaiverGrantedKind => WAIVER_GRANTED
    case WaiverRevokedKind => WAIVER_REVOKED
  }

  function AsKind(t: Text): Option<EventKind>
  {
    if t == ICLA_SIGNED then Some(IclaSignedKind)
    else if t == CCLA_SIGNED then Some(CclaSignedKind)
    else if t == CCLA_APPROVED then Some(CclaApprovedKind)
    else if t == CCLA_REJECTED then Some(CclaRejectedKind)
    else if t == CCLA_REVOKED then Some(CclaRevokedKind)
    else if t == DOC_PUBLISHED then Some(DocPublishedKind)
    else if t == DOC_RESIGN_SET then Some(DocResignSetKind)
    else if t == ROSTER_ADDED then Some(RosterAddedKind)
    else if t == ROSTER_REVOKED then Some(RosterRevokedKind)
    else if t == ROSTER_DISPUTED then Some(RosterDisputedKind)
    else if t == SIGNATURE_REVOKED then Some(SignatureRevokedKind)
    else if t == WAIVER_GRANTED then Some(WaiverGrantedKind)
    else if t == WAIVER_REVOKED then Some(WaiverRevokedKind)
    else None
  }

  lemma KindRoundTrip(k: EventKind)
    ensures AsKind(KindText(k)) == Some(k)
  {
    assert ICLA_SIGNED[0] != CCLA_SIGNED[0];
    assert CCLA_APPROVED[5] != CCLA_REJECTED[5] && CCLA_APPROVED[0] != DOC_PUBLISHED[0] && CCLA_REJECTED[0] != DOC_PUBLISHED[0];
    assert CCLA_REVOKED[0] != ROSTER_ADDED[0];
    assert DOC_RESIGN_SET[0] != ROSTER_REVOKED[0] && DOC_RESIGN_SET[0] != WAIVER_GRANTED[0] && ROSTER_REVOKED[0] != WAIVER_GRANTED[0];
    assert DOC_RESIGN_SET[0] != WAIVER_REVOKED[0] && ROSTER_REVOKED[0] != WAIVER_REVOKED[0] && WAIVER_GRANTED[7] != WAIVER_REVOKED[7];
  }

  function KindOf(e: Event): EventKind
  {
    match e
    case IclaSigned(_, _, _, _) => IclaSignedKind
    case CclaSigned(_, _, _, _, _) => CclaSignedKind
    case CclaApproved(_) => CclaApprovedKind
    case CclaRejected(_) => CclaRejectedKind
    case CclaRevoked(_) => CclaRevokedKind
    case DocPublished(_, _, _, _) => DocPublishedKind
    case ResignSet(_, _) => DocResignSetKind
    case RosterAdded(_, _, _, _) => RosterAddedKind
    case RosterRevoked(_, _, _, _) => RosterRevokedKind
    case RosterDisputed(_, _, _, _) => RosterDisputedKind
    case SignatureRevoked(_, _, _) => SignatureRevokedKind
    case WaiverGranted(_, _, _) => WaiverGrantedKind
    case WaiverRevoked(_, _, _) => WaiverRevokedKind
  }

  /** The rows an entry names beside its payload. */
  function LinksOf(e: Event): Links
  {
    match e
    case DocPublished(v, _, _, _) => NO_LINKS.(version := Some(v))
    case ResignSet(_, _) => NO_LINKS
    case IclaSigned(s, v, _, _) => NO_LINKS.(signature := Some(s), version := Some(v))
    case CclaSigned(c, s, v, _, _) => NO_LINKS.(signature := Some(s), version := Some(v), corporate := Some(c))
    case CclaApproved(c) => NO_LINKS.(corporate := Some(c))
    case CclaRejected(c) => NO_LINKS.(corporate := Some(c))
    case CclaRevoked(c) => NO_LINKS.(corporate := Some(c))
    case RosterAdded(m, c, _, _) => NO_LINKS.(member := Some(m), corporate := Some(c))
    case RosterRevoked(m, c, _, _) => NO_LINKS.(member := Some(m), corporate := Some(c))
    case RosterDisputed(m, c, _, _) => NO_LINKS.(member := Some(m), corporate := Some(c))
    case SignatureRevoked(s, _, _) => NO_LINKS.(signature := Some(s))
    case WaiverGranted(w, _, _) => NO_LINKS.(waiver := Some(w))
    case WaiverRevoked(w, _, _) => NO_LINKS.(waiver := Some(w))
  }

  // ---- payloads ----

  function OptNum(n: Option<int>): Json { match n case Some(i) => Num(i) case None => Null }

  function EncodeIds(ids: seq<nat>): seq<Json>
  {
    seq(|ids|, i requires 0 <= i < |ids| => Num(ids[i]))
  }

  function EncodeChange(c: ResignChange): Json
  {
    Obj([(VERSION_ID_KEY, Num(c.versionId)), (VERSION_KEY, Num(c.number)), (RESIGN_REQUIRED_KEY, Bool(c.resignRequired))])
  }

  function EncodeChanges(cs: seq<ResignChange>): seq<Json>
  {
    seq(|cs|, i requires 0 <= i < |cs| => EncodeChange(cs[i]))
  }

  function MemberFields(kind: EventKind, m: nat, c: nat, login: Text, ghId: Option<int>): seq<Field>
  {
    [(KIND_KEY, Str(KindText(kind))), (ROSTER_MEMBER_ID_KEY, Num(m)), (CORPORATE_ID_KEY, Num(c)),
     (GH_LOGIN_KEY, Str(login)), (GH_ID_KEY, OptNum(ghId))]
  }

  function WaiverFields(kind: EventKind, w: nat, login: Text, ghId: Option<int>): seq<Field>
  {
    [(KIND_KEY, Str(KindText(kind))), (WAIVER_ID_KEY, Num(w)), (GH_LOGIN_KEY, Str(login)), (GH_ID_KEY, OptNum(ghId))]
  }

  function IclaFields(s: nat, v: nat, ghId: int, login: Text): seq<Field>
  {
    [(KIND_KEY, Str(KindText(IclaSignedKind))), (SIGNATURE_ID_KEY, Num(s)), (VERSION_ID_KEY, Num(v)),
     (GH_ID_KEY, Num(ghId)), (GH_LOGIN_KEY, Str(login))]
  }

  function CclaFields(c: nat, s: nat, v: nat, ghId: int, login: Text): seq<Field>
  {
    [(KIND_KEY, Str(KindText(CclaSignedKind))), (CORPORATE_ID_KEY, Num(c)), (SIGNATURE_ID_KEY, Num(s)),
     (VERSION_ID_KEY, Num(v)), (GH_ID_KEY, Num(ghId)), (GH_LOGIN_KEY, Str(login))]
  }

  function CompanyFields(kind: EventKind, c: nat): seq<Field>
  {
    [(KIND_KEY, Str(KindText(kind))), (CORPORATE_ID_KEY, Num(c))]
  }

  function RevokedFields(s: nat, ghId: int, login: Text): seq<Field>
  {
    [(KIND_KEY, Str(KindText(SignatureRevokedKind))), (SIGNATURE_ID_KEY, Num(s)), (GH_ID_KEY, Num(ghId)),
     (GH_LOGIN_KEY, Str(login))]
  }

  /** The marked versions are named only when there are some. */
  function PublishedFields(v: nat, kind: DocKind, number: nat, ids: seq<nat>): seq<Field>
  {
    [(KIND_KEY, Str(KindText(DocPublishedKind))), (DOCUMENT_VERSION_ID_KEY, Num(v)),
     (DOCUMENT_KIND_KEY, Str(DocKindText(kind))), (VERSION_KEY, Num(number))]
    + if ids == [] then [] else [(RESIGN_VERSION_IDS_KEY, Arr(EncodeIds(ids)))]
  }

  function ResignFields(kind: DocKind, changes: seq<ResignChange>): seq<Field>
  {
    [(KIND_KEY, Str(KindText(DocResignSetKind))), (DOCUMENT_KIND_KEY, Str(DocKindText(kind))),
     (VERSIONS_KEY, Arr(EncodeChanges(changes)))]
  }

  /** The payload's fields, in the order the transaction writes them. */
  function Fields(e: Event): seq<Field>
  {
    match e
    case DocPublished(v, kind, number, ids) => PublishedFields(v, kind, number, ids)
    case ResignSet(kind, changes) => ResignFields(kind, changes)
    case IclaSigned(s, v, ghId, login) => IclaFields(s, v, ghId, login)
    case CclaSigned(c, s, v, ghId, login) => CclaFields(c, s, v, ghId, login)
    case CclaApproved(c) => CompanyFields(CclaApprovedKind, c)
    case CclaRejected(c) => CompanyFields(CclaRejectedKind, c)
    case CclaRevoked(c) => CompanyFields(CclaRevokedKind, c)
    case RosterAdded(m, c, login, ghId) => MemberFields(RosterAddedKind, m, c, login, ghId)
    case RosterRevoked(m, c, login, ghId) => MemberFields(RosterRevokedKind, m, c, login, ghId)
    case RosterDisputed(m, c, login, ghId) => MemberFields(RosterDisputedKind, m, c, login, ghId)
    case SignatureRevoked(s, ghId, login) => RevokedFields(s, ghId, login)
    case WaiverGranted(w, login, ghId) => WaiverFields(WaiverGrantedKind, w, login, ghId)
    case WaiverRevoked(w, login, ghId) => WaiverFields(WaiverRevokedKind, w, login, ghId)
  }

  function Encode(e: Event): Json { Obj(Fields(e)) }

  // ---- reading a payload ----

  /** The value at a key, found by walking the fields. */
  function At(fs: seq<Field>, k: Text): Json
  {
    if fs == [] then Undefined else if fs[0].0 == k then fs[0].1 else At(fs[1..], k)
  }

  lemma {:induction false} AtIsLookup(fs: seq<Field>, k: Text)
    ensures At(fs, k) == Lookup(fs, k)
  {
    if fs != [] && fs[0].0 != k {
      AtIsLookup(fs[1..], k);
      if HasKey(fs, k) {
        var i := IndexOf(fs, k);
        assert fs[1..][i - 1].0 == k;
        assert IndexOf(fs, k) == 1 + IndexOf(fs[1..], k);
      }
    } else if fs != [] {
      assert IndexOf(fs, k) == 0;
    }
  }

  lemma AtIndex(fs: seq<Field>, i: nat)
    requires DistinctKeys(fs) && i < |fs|
    ensures At(fs, fs[i].0) == fs[i].1
  {
    AtIsLookup(fs, fs[i].0);
    LookupAt(fs, i);
  }

  function AsInt(v: Json): Option<int> { if v.Num? then Some(v.number) else None }

  function AsNat(v: Json): Option<nat> { if v.Num? && v.number >= 0 then Some(v.number) else None }

  function AsText(v: Json): Option<Text> { if v.Str? then Some(v.text) else None }

  function AsOptInt(v: Json): Option<Option<int>>
  {
    if v.Num? then Some(Some(v.number)) else if v.Null? || v.Undefined? then Some(None) else None
  }

  function AsEventKind(v: Json): Option<EventKind> { if v.Str? then AsKind(v.text) else None }

  function AsDocKind(v: Json): Option<DocKind>
  {
    if v == Str(ICLA_TEXT) then Some(Icla) else if v == Str(CCLA_TEXT) then Some(Ccla) else None
  }

  function DecodeIds(items: seq<Json>): Option<seq<nat>>
  {
    if items == [] then Some([])
    else
      match (AsNat(items[0]), DecodeIds(items[1..]))
      case (Some(id), Some(ids)) => Some([id] + ids)
      case _ => None
  }

  function DecodeChange(v: Json): Option<ResignChange>
  {
    if !v.Obj? then None
    else
      var flag := At(v.fields, RESIGN_REQUIRED_KEY);
      match (AsNat(At(v.fields, VERSION_ID_KEY)), AsNat(At(v.fields, VERSION_KEY)))
      case (Some(id), Some(number)) => if flag.Bool? then Some(ResignChange(id, number, flag.flag)) else None
      case _ => None
  }

  function DecodeChanges(items: seq<Json>): Option<seq<ResignChange>>
  {
    if items == [] then Some([])
    else
      match (DecodeChange(items[0]), DecodeChanges(items[1..]))
      case (Some(c), Some(cs)) => Some([c] + cs)
      case _ => None
  }

  function AsIds(v: Json): Option<seq<nat>>
  {
    match v case Arr(items) => DecodeIds(items) case Undefined => Some([]) case _ => None
  }

  function AsChanges(v: Json): Option<seq<ResignChange>>
  {
    match v case Arr(items) => DecodeChanges(items) case _ => None
  }

  function NatAt(fs: seq<Field>, k: Text): Option<nat> { AsNat(At(fs, k)) }

  function TextAt(fs: seq<Field>, k: Text): Option<Text> { AsText(At(fs, k)) }

  function IntAt(fs: seq<Field>, k: Text): Option<int> { AsInt(At(fs, k)) }

  function OptIntAt(fs: seq<Field>, k: Text): Option<Option<int>> { AsOptInt(At(fs, k)) }

  function DecodePublished(fs: seq<Field>): Option<Event>
  {
    match (NatAt(fs, DOCUMENT_VERSION_ID_KEY), AsDocKind(At(fs, DOCUMENT_KIND_KEY)), NatAt(fs, VERSION_KEY),
           AsIds(At(fs, RESIGN_VERSION_IDS_KEY)))
    case (Some(v), Some(k), Some(n), Some(ids)) => Some(DocPublished(v, k, n, ids))
    case _ => None
  }

  function DecodeResign(fs: seq<Field>): Option<Event>
  {
    match (AsDocKind(At(fs, DOCUMENT_KIND_KEY)), AsChanges(At(fs, VERSIONS_KEY)))
    case (Some(k), Some(cs)) => Some(ResignSet(k, cs))
    case _ => None
  }

  function DecodeIcla(fs: seq<Field>): Option<Event>
  {
    match (NatAt(fs, SIGNATURE_ID_KEY), NatAt(fs, VERSION_ID_KEY), IntAt(fs, GH_ID_KEY), TextAt(fs, GH_LOGIN_KEY))
    case (Some(s), Some(v), Some(g), Some(l)) => Some(IclaSigned(s, v, g, l))
    case _ => None
  }

  function DecodeCcla(fs: seq<Field>): Option<Event>
  {
    match (NatAt(fs, CORPORATE_ID_KEY), NatAt(fs, SIGNATURE_ID_KEY), NatAt(fs, VERSION_ID_KEY), IntAt(fs, GH_ID_KEY),
           TextAt(fs, GH_LOGIN_KEY))
    case (Some(c), Some(s), Some(v), Some(g), Some(l)) => Some(CclaSigned(c, s, v, g, l))
    case _ => None
  }

  function DecodeRevoked(fs: seq<Field>): Option<Event>
  {
    match (NatAt(fs, SIGNATURE_ID_KEY), IntAt(fs, GH_ID_KEY), TextAt(fs, GH_LOGIN_KEY))
    case (Some(s), Some(g), Some(l)) => Some(SignatureRevoked(s, g, l))
    case _ => None
  }

  function DecodeCompany(fs: seq<Field>, k: EventKind): Option<Event>
  {
    match NatAt(fs, CORPORATE_ID_KEY)
    case Some(c) =>
      Some(if k == CclaApprovedKind then CclaApproved(c) else if k == CclaRejectedKind then CclaRejected(c)
           else CclaRevoked(c))
    case None => None
  }

  function DecodeMember(fs: seq<Field>, k: EventKind): Option<Event>
  {
    match (NatAt(fs, ROSTER_MEMBER_ID_KEY), NatAt(fs, CORPORATE_ID_KEY), TextAt(fs, GH_LOGIN_KEY), OptIntAt(fs, GH_ID_KEY))
    case (Some(m), Some(c), Some(l), Some(g)) =>
      Some(if k == RosterAddedKind then RosterAdded(m, c, l, g)
           else if k == RosterRevokedKind then RosterRevoked(m, c, l, g) else RosterDisputed(m, c, l, g))
    case _ => None
  }

  function DecodeWaiver(fs: seq<Field>, k: EventKind): Option<Event>
  {
    match (NatAt(fs, WAIVER_ID_KEY), TextAt(fs, GH_LOGIN_KEY), OptIntAt(fs, GH_ID_KEY))
    case (Some(w), Some(l), Some(g)) =>
      Some(if k == WaiverGrantedKind then WaiverGranted(w, l, g) else WaiverRevoked(w, l, g))
    case _ => None
  }

  function DecodeFields(fs: seq<Field>, k: EventKind): Option<Event>
  {
    match k
    case DocPublishedKind => DecodePublished(fs)
    case DocResignSetKind => DecodeResign(fs)
    case IclaSignedKind => DecodeIcla(fs)
    case CclaSignedKind => DecodeCcla(fs)
    case SignatureRevokedKind => DecodeRevoked(fs)
    case CclaApprovedKind => DecodeCompany(fs, k)
    case CclaRejectedKind => DecodeCompany(fs, k)
    case CclaRevokedKind => DecodeCompany(fs, k)
    case WaiverGrantedKind => DecodeWaiver(fs, k)
    case WaiverRevokedKind => DecodeWaiver(fs, k)
    case _ => DecodeMember(fs, k)
  }

  function Decode(v: Json): Option<Event>
  {
    if !v.Obj? then None
    else
      match AsEventKind(At(v.fields, KIND_KEY))
      case Some(k) => DecodeFields(v.fields, k)
      case None => None
  }

  // ---- decoding depends on what the keys hold, not on their order ----

  lemma EquivalentAt(fs: seq<Field>, gs: seq<Field>, k: Text)
    requires WellFormed(Obj(fs)) && WellFormed(Obj(gs)) && Equivalent(Obj(fs), Obj(gs))
    ensures Equivalent(At(fs, k), At(gs, k)) && (At(fs, k) == Undefined <==> At(gs, k) == Undefined)
    ensures WellFormed(At(fs, k)) && WellFormed(At(gs, k))
  {
    AtIsLookup(fs, k);
    AtIsLookup(gs, k);
    if Lookup(fs, k) != Undefined {
      assert fs[IndexOf(fs, k)].0 == k;
    }
    if Lookup(gs, k) != Undefined {
      assert gs[IndexOf(gs, k)].0 == k;
    }
  }

  lemma {:induction false} EquivalentIds(a: seq<Json>, b: seq<Json>)
    requires |a| == |b| && forall i :: 0 <= i < |a| ==> Equivalent(a[i], b[i])
    ensures DecodeIds(a) == DecodeIds(b)
  {
    if a != [] {
      EquivalentIds(a[1..], b[1..]);
    }
  }

  lemma EquivalentChange(v: Json, w: Json)
    requires WellFormed(v) && WellFormed(w) && Equivalent(v, w)
    ensures DecodeChange(v) == DecodeChange(w)
  {
    if v.Obj? {
      EquivalentAt(v.fields, w.fields, RESIGN_REQUIRED_KEY);
      EquivalentAt(v.fields, w.fields, VERSION_ID_KEY);
      EquivalentAt(v.fields, w.fields, VERSION_KEY);
    }
  }

  lemma {:induction false} EquivalentChanges(a: seq<Json>, b: seq<Json>)
    requires |a| == |b|
    requires forall i :: 0 <= i < |a| ==> WellFormed(a[i]) && WellFormed(b[i]) && Equivalent(a[i], b[i])
    ensures DecodeChanges(a) == DecodeChanges(b)
  {
    if a != [] {
      EquivalentChange(a[0], b[0]);
      EquivalentChanges(a[1..], b[1..]);
    }
  }

  /** Two values that every reading below takes alike. */
  ghost predicate Alike(v: Json, w: Json)
  {
    AsText(v) == AsText(w) && AsEventKind(v) == AsEventKind(w) && AsNat(v) == AsNat(w) && AsInt(v) == AsInt(w) &&
    AsOptInt(v) == AsOptInt(w) && AsDocKind(v) == AsDocKind(w) && AsIds(v) == AsIds(w) && AsChanges(v) == AsChanges(w)
  }

  lemma EquivalentIsAlike(v: Json, w: Json)
    requires WellFormed(v) && WellFormed(w) && Equivalent(v, w) && (v == Undefined <==> w == Undefined)
    ensures Alike(v, w)
  {
    if v.Arr? {
      EquivalentIds(v.items, w.items);
      EquivalentChanges(v.items, w.items);
    }
  }

  lemma DecodeFieldsAlike(fs: seq<Field>, gs: seq<Field>, k: EventKind)
    requires forall key :: Alike(At(fs, key), At(gs, key))
    ensures DecodeFields(fs, k) == DecodeFields(gs, k)
  {
    DocFieldsAlike(fs, gs);
    SignedFieldsAlike(fs, gs);
    AccountFieldsAlike(fs, gs, k);
  }

  lemma DocFieldsAlike(fs: seq<Field>, gs: seq<Field>)
    requires forall key :: Alike(At(fs, key), At(gs, key))
    ensures DecodePublished(fs) == DecodePublished(gs) && DecodeResign(fs) == DecodeResign(gs)
  {
    assert Alike(At(fs, DOCUMENT_VERSION_ID_KEY), At(gs, DOCUMENT_VERSION_ID_KEY));
    assert Alike(At(fs, DOCUMENT_KIND_KEY), At(gs, DOCUMENT_KIND_KEY));
    assert Alike(At(fs, VERSION_KEY), At(gs, VERSION_KEY));
    assert Alike(At(fs, RESIGN_VERSION_IDS_KEY), At(gs, RESIGN_VERSION_IDS_KEY));
    assert Alike(At(fs, VERSIONS_KEY), At(gs, VERSIONS_KEY));
  }

  lemma SignedFieldsAlike(fs: seq<Field>, gs: seq<Field>)
    requires forall key :: Alike(At(fs, key), At(gs, key))
    ensures DecodeIcla(fs) == DecodeIcla(gs) && DecodeCcla(fs) == DecodeCcla(gs) && DecodeRevoked(fs) == DecodeRevoked(gs)
  {
    assert Alike(At(fs, SIGNATURE_ID_KEY), At(gs, SIGNATURE_ID_KEY));
    assert Alike(At(fs, VERSION_ID_KEY), At(gs, VERSION_ID_KEY));
    assert Alike(At(fs, CORPORATE_ID_KEY), At(gs, CORPORATE_ID_KEY));
    assert Alike(At(fs, GH_ID_KEY), At(gs, GH_ID_KEY));
    assert Alike(At(fs, GH_LOGIN_KEY), At(gs, GH_LOGIN_KEY));
  }

  lemma AccountFieldsAlike(fs: seq<Field>, gs: seq<Field>, k: EventKind)
    requires forall key :: Alike(At(fs, key), At(gs, key))
    ensures DecodeMember(fs, k) == DecodeMember(gs, k) && DecodeWaiver(fs, k) == DecodeWaiver(gs, k)
    ensures DecodeCompany(fs, k) == DecodeCompany(gs, k)
  {
    assert Alike(At(fs, ROSTER_MEMBER_ID_KEY), At(gs, ROSTER_MEMBER_ID_KEY));
    assert Alike(At(fs, CORPORATE_ID_KEY), At(gs, CORPORATE_ID_KEY));
    assert Alike(At(fs, WAIVER_ID_KEY), At(gs, WAIVER_ID_KEY));
    assert Alike(At(fs, GH_ID_KEY), At(gs, GH_ID_KEY));
    assert Alike(At(fs, GH_LOGIN_KEY), At(gs, GH_LOGIN_KEY));
  }

  /** Payloads equal up to key order decode to the same event. */
  lemma DecodeIgnoresKeyOrder(v: Json, w: Json)
    requires WellFormed(v) && WellFormed(w) && Equivalent(v, w)
    ensures Decode(v) == Decode(w)
  {
    if v.Obj? {
      forall key ensures Alike(At(v.fields, key), At(w.fields, key)) {
        EquivalentAt(v.fields, w.fields, key);
        EquivalentIsAlike(At(v.fields, key), At(w.fields, key));
      }
      assert Alike(At(v.fields, KIND_KEY), At(w.fields, KIND_KEY));
      var k := AsEventKind(At(v.fields, KIND_KEY));
      if k.Some? {
        DecodeFieldsAlike(v.fields, w.fields, k.value);
      }
    }
  }

  // ---- decoding reads back what was encoded ----

  lemma {:induction false} IdsRoundTrip(ids: seq<nat>)
    ensures DecodeIds(EncodeIds(ids)) == Some(ids)
  {
    if ids != [] {
      IdsRoundTrip(ids[1..]);
      assert EncodeIds(ids)[1..] == EncodeIds(ids[1..]);
      assert ids == [ids[0]] + ids[1..];
    }
  }

  lemma KeysDiffer()
    ensures VERSION_ID_KEY != VERSION_KEY && VERSION_ID_KEY != RESIGN_REQUIRED_KEY && VERSION_KEY != RESIGN_REQUIRED_KEY
  {
    assert |VERSION_ID_KEY| == 9 && |VERSION_KEY| == 7 && |RESIGN_REQUIRED_KEY| == 14;
  }

  lemma ChangeRoundTrip(c: ResignChange)
    ensures DecodeChange(EncodeChange(c)) == Some(c) && WellFormed(EncodeChange(c))
  {
    KeysDiffer();
    var fs := EncodeChange(c).fields;
    assert DistinctKeys(fs);
    AtIndex(fs, 0);
    AtIndex(fs, 1);
    AtIndex(fs, 2);
  }

  lemma {:induction false} ChangesRoundTrip(cs: seq<ResignChange>)
    ensures DecodeChanges(EncodeChanges(cs)) == Some(cs)
    ensures forall i :: 0 <= i < |cs| ==> WellFormed(EncodeChanges(cs)[i])
  {
    if cs != [] {
      ChangeRoundTrip(cs[0]);
      ChangesRoundTrip(cs[1..]);
      assert EncodeChanges(cs)[1..] == EncodeChanges(cs[1..]);
      assert cs == [cs[0]] + cs[1..];
    }
  }

  /** Tells the keys of a payload apart: the length, the first unit and the third. */
  function Tag(k: Text): (int, int, int)
    requires |k| > 2
  {
    (|k|, k[0] as int, k[2] as int)
  }

  lemma DistinctByTag(fs: seq<Field>)
    requires forall i :: 0 <= i < |fs| ==> |fs[i].0| > 2
    requires forall i, j :: 0 <= i < j < |fs| ==> Tag(fs[i].0) != Tag(fs[j].0)
    ensures DistinctKeys(fs)
  {
    forall i, j | 0 <= i < j < |fs| ensures fs[i].0 != fs[j].0 {
      assert Tag(fs[i].0) != Tag(fs[j].0);
    }
  }

  lemma DocKindRoundTrip(k: DocKind)
    ensures AsDocKind(Str(DocKindText(k))) == Some(k)
  {
    assert ICLA_TEXT[0] != CCLA_TEXT[0];
  }

  lemma MemberRead(kind: EventKind, m: nat, c: nat, login: Text, ghId: Option<int>)
    ensures var fs := MemberFields(kind, m, c, login, ghId);
      WellFormed(Obj(fs)) && At(fs, KIND_KEY) == Str(KindText(kind)) &&
      DecodeMember(fs, kind) == Some(if kind == RosterAddedKind then RosterAdded(m, c, login, ghId)
        else if kind == RosterRevokedKind then RosterRevoked(m, c, login, ghId) else RosterDisputed(m, c, login, ghId))
  {
    var fs := MemberFields(kind, m, c, login, ghId);
    DistinctByTag(fs);
    AtIndex(fs, 0);
    AtIndex(fs, 1);
    AtIndex(fs, 2);
    AtIndex(fs, 3);
    AtIndex(fs, 4);
  }

  lemma WaiverRead(kind: EventKind, w: nat, login: Text, ghId: Option<int>)
    ensures var fs := WaiverFields(kind, w, login, ghId);
      WellFormed(Obj(fs)) && At(fs, KIND_KEY) == Str(KindText(kind)) &&
      DecodeWaiver(fs, kind) == Some(if kind == WaiverGrantedKind then WaiverGranted(w, login, ghId) else WaiverRevoked(w, login, ghId))
  {
    var fs := WaiverFields(kind, w, login, ghId);
    DistinctByTag(fs);
    AtIndex(fs, 0);
    AtIndex(fs, 1);
    AtIndex(fs, 2);
    AtIndex(fs, 3);
  }

  lemma IclaKeysDiffer(s: nat, v: nat, ghId: int, login: Text)
    ensures DistinctKeys(IclaFields(s, v, ghId, login))
  {
    DistinctByTag(IclaFields(s, v, ghId, login));
  }

  lemma IclaRead(s: nat, v: nat, ghId: int, login: Text)
    ensures var fs := IclaFields(s, v, ghId, login);
      WellFormed(Obj(fs)) && At(fs, KIND_KEY) == Str(KindText(IclaSignedKind)) &&
      DecodeIcla(fs) == Some(IclaSigned(s, v, ghId, login))
  {
    var fs := IclaFields(s, v, ghId, login);
    IclaKeysDiffer(s, v, ghId, login);
    AtIndex(fs, 0);
    AtIndex(fs, 1);
    AtIndex(fs, 2);
    AtIndex(fs, 3);
    AtIndex(fs, 4);
  }

  lemma CclaKeysDiffer(c: nat, s: nat, v: nat, ghId: int, login: Text)
    ensures DistinctKeys(CclaFields(c, s, v, ghId, login))
  {
    DistinctByTag(CclaFields(c, s, v, ghId, login));
  }

  lemma CclaRead(c: nat, s: nat, v: nat, ghId: int, login: Text)
    ensures var fs := CclaFields(c, s, v, ghId, login);
      WellFormed(Obj(fs)) && At(fs, KIND_KEY) == Str(KindText(CclaSignedKind)) &&
      DecodeCcla(fs) == Some(CclaSigned(c, s, v, ghId, login))
  {
    var fs := CclaFields(c, s, v, ghId, login);
    CclaKeysDiffer(c, s, v, ghId, login);
    AtIndex(fs, 0);
    AtIndex(fs, 1);
    AtIndex(fs, 2);
    AtIndex(fs, 3);
    AtIndex(fs, 4);
    AtIndex(fs, 5);
  }

  lemma RevokedRead(s: nat, ghId: int, login: Text)
    ensures var fs := RevokedFields(s, ghId, login);
      WellFormed(Obj(fs)) && At(fs, KIND_KEY) == Str(KindText(SignatureRevokedKind)) &&
      DecodeRevoked(fs) == Some(SignatureRevoked(s, ghId, login))
  {
    var fs := RevokedFields(s, ghId, login);
    DistinctByTag(fs);
    AtIndex(fs, 0);
    AtIndex(fs, 1);
    AtIndex(fs, 2);
    AtIndex(fs, 3);
  }

  lemma CompanyRead(kind: EventKind, c: nat)
    ensures var fs := CompanyFields(kind, c);
      WellFormed(Obj(fs)) && At(fs, KIND_KEY) == Str(KindText(kind)) &&
      DecodeCompany(fs, kind) == Some(if kind == CclaApprovedKind then CclaApproved(c)
        else if kind == CclaRejectedKind then CclaRejected(c) else CclaRevoked(c))
  {
    var fs := CompanyFields(kind, c);
    DistinctByTag(fs);
    AtIndex(fs, 0);
    AtIndex(fs, 1);
  }

  lemma ResignRead(kind: DocKind, changes: seq<ResignChange>)
    ensures var fs := ResignFields(kind, changes);
      WellFormed(Obj(fs)) && At(fs, KIND_KEY) == Str(KindText(DocResignSetKind)) &&
      DecodeResign(fs) == Some(ResignSet(kind, changes))
  {
    var fs := ResignFields(kind, changes);
    DistinctByTag(fs);
    AtIndex(fs, 0);
    AtIndex(fs, 1);
    AtIndex(fs, 2);
    ChangesRoundTrip(changes);
    DocKindRoundTrip(kind);
  }

  lemma PublishedHeadRead(v: nat, kind: DocKind, number: nat, ids: seq<nat>)
    ensures var fs := PublishedFields(v, kind, number, ids);
      WellFormed(Obj(fs)) && At(fs, KIND_KEY) == Str(KindText(DocPublishedKind)) &&
      At(fs, DOCUMENT_VERSION_ID_KEY) == Num(v) && At(fs, DOCUMENT_KIND_KEY) == Str(DocKindText(kind)) &&
      At(fs, VERSION_KEY) == Num(number)
  {
    var fs := PublishedFields(v, kind, number, ids);
    DistinctByTag(fs);
    AtIndex(fs, 0);
    AtIndex(fs, 1);
    AtIndex(fs, 2);
    AtIndex(fs, 3);
  }

  lemma PublishedIdsRead(v: nat, kind: DocKind, number: nat, ids: seq<nat>)
    ensures AsIds(At(PublishedFields(v, kind, number, ids), RESIGN_VERSION_IDS_KEY)) == Some(ids)
  {
    var fs := PublishedFields(v, kind, number, ids);
    PublishedHeadRead(v, kind, number, ids);
    if ids != [] {
      AtIndex(fs, 4);
      IdsRoundTrip(ids);
    } else {
      assert |RESIGN_VERSION_IDS_KEY| == 16;
      assert !HasKey(fs, RESIGN_VERSION_IDS_KEY);
      AtIsLookup(fs, RESIGN_VERSION_IDS_KEY);
    }
  }

  lemma PublishedRead(v: nat, kind: DocKind, number: nat, ids: seq<nat>)
    ensures DecodePublished(PublishedFields(v, kind, number, ids)) == Some(DocPublished(v, kind, number, ids))
  {
    PublishedHeadRead(v, kind, number, ids);
    PublishedIdsRead(v, kind, number, ids);
    DocKindRoundTrip(kind);
  }

  ghost predicate ReadsBack(e: Event)
  {
    WellFormed(Encode(e)) && At(Fields(e), KIND_KEY) == Str(KindText(KindOf(e))) &&
    DecodeFields(Fields(e), KindOf(e)) == Some(e)
  }

  lemma MemberReadsBack(e: Event)
    requires e.RosterAdded? || e.RosterRevoked? || e.RosterDisputed?
    ensures ReadsBack(e)
  {
    MemberRead(KindOf(e), e.memberId, e.corporateId, e.ghLogin, e.ghId);
  }

  lemma WaiverReadsBack(e: Event)
    requires e.WaiverGranted? || e.WaiverRevoked?
    ensures ReadsBack(e)
  {
    WaiverRead(KindOf(e), e.waiverId, e.ghLogin, e.ghId);
  }

  lemma CompanyReadsBack(e: Event)
    requires e.CclaApproved? || e.CclaRejected? || e.CclaRevoked?
    ensures ReadsBack(e)
  {
    CompanyRead(KindOf(e), e.corporateId);
  }

  lemma IclaReadsBack(s: nat, v: nat, ghId: int, login: Text)
    ensures ReadsBack(IclaSigned(s, v, ghId, login))
  {
    IclaRead(s, v, ghId, login);
    assert Fields(IclaSigned(s, v, ghId, login)) == IclaFields(s, v, ghId, login);
  }

  lemma CclaReadsBack(c: nat, s: nat, v: nat, ghId: int, login: Text)
    ensures ReadsBack(CclaSigned(c, s, v, ghId, login))
  {
    CclaRead(c, s, v, ghId, login);
    assert Fields(CclaSigned(c, s, v, ghId, login)) == CclaFields(c, s, v, ghId, login);
  }

  lemma RevokedReadsBack(s: nat, ghId: int, login: Text)
    ensures ReadsBack(SignatureRevoked(s, ghId, login))
  {
    RevokedRead(s, ghId, login);
    assert Fields(SignatureRevoked(s, ghId, login)) == RevokedFields(s, ghId, login);
  }

  lemma DocReadsBack(e: Event)
    requires e.DocPublished? || e.ResignSet?
    ensures ReadsBack(e)
  {
    match e
    case DocPublished(v, kind, number, ids) =>
      PublishedHeadRead(v, kind, number, ids);
      PublishedRead(v, kind, number, ids);
    case ResignSet(kind, changes) => ResignRead(kind, changes);
  }

  /** The payload of an event holds its kind and reads back as that event. */
  lemma FieldsRead(e: Event)
    ensures ReadsBack(e)
  {
    match e
    case IclaSigned(s, v, ghId, login) => IclaReadsBack(s, v, ghId, login);
    case CclaSigned(c, s, v, ghId, login) => CclaReadsBack(c, s, v, ghId, login);
    case SignatureRevoked(s, ghId, login) => RevokedReadsBack(s, ghId, login);
    case _ =>
      if e.RosterAdded? || e.RosterRevoked? || e.RosterDisputed? {
        MemberReadsBack(e);
      } else if e.WaiverGranted? || e.WaiverRevoked? {
        WaiverReadsBack(e);
      } else if e.DocPublished? || e.ResignSet? {
        DocReadsBack(e);
      } else {
        CompanyReadsBack(e);
      }
  }

  /** Every event can be read back from its payload. */
  lemma EventRoundTrip(e: Event)
    ensures WellFormed(Encode(e)) && Decode(Encode(e)) == Some(e)
  {
    FieldsRead(e);
    KindRoundTrip(KindOf(e));
  }

  // ---- the chain of a log ----

  function AppendEvent(h: Hash, project: Text, chain: seq<Entry>, e: Event): seq<Entry>
  {
    Append(h, project, chain, KindText(KindOf(e)), Encode(e), LinksOf(e))
  }

  function ChainOf(h: Hash, project: Text, log: seq<Event>): seq<Entry>
  {
    if log == [] then []
    else AppendEvent(h, project, ChainOf(h, project, log[..|log| - 1]), log[|log| - 1])
  }

  /** The events a chain records, the genesis entry left out; `None` where a payload is not one of an event. */
  function DecodeEntries(entries: seq<Entry>): Option<seq<Event>>
  {
    if entries == [] then Some([])
    else
      match DecodeEntries(entries[..|entries| - 1])
      case None => None
      case Some(events) =>
        match Parse(entries[|entries| - 1].payload)
        case None => None
        case Some(v) =>
          match Decode(v)
          case None => None
          case Some(e) => Some(events + [e])
  }

  function DecodeChain(chain: seq<Entry>): Option<seq<Event>>
  {
    if chain == [] then Some([]) else DecodeEntries(chain[1..])
  }

  lemma DecodeOneMore(entries: seq<Entry>, last: Entry, e: Event)
    requires DecodeEntries(entries).Some? && Parse(last.payload).Some? && Decode(Parse(last.payload).value) == Some(e)
    ensures DecodeEntries(entries + [last]) == Some(DecodeEntries(entries).value + [e])
  {
    assert (entries + [last])[..|entries|] == entries;
  }

  /** An accepted chain that holds, after its genesis, one entry for each event of the log. */
  ghost predicate Records(h: Hash, project: Text, chain: seq<Entry>, log: seq<Event>)
  {
    Accepted(h, project, chain) && |chain| == (if log == [] then 0 else |log| + 1) && DecodeChain(chain) == Some(log)
  }

  /** An event can be read back from the text its payload is stored as. */
  lemma StoredEventReads(e: Event)
    ensures WellFormed(Encode(e)) && Parse(Stringify(Encode(e))).Some? && Decode(Parse(Stringify(Encode(e))).value) == Some(e)
  {
    EventRoundTrip(e);
    StoredValueKeepsItsText(Encode(e));
    DecodeIgnoresKeyOrder(Encode(e), Clean(Encode(e)));
  }

  /** Appending an event's entry to a chain that records a log makes it record the log with the event. */
  lemma AppendRecords(h: Hash, project: Text, chain: seq<Entry>, log: seq<Event>, e: Event)
    requires Records(h, project, chain, log)
    ensures Records(h, project, AppendEvent(h, project, chain, e), log + [e])
  {
    StoredEventReads(e);
    AppendKeepsAccepted(h, project, chain, KindText(KindOf(e)), Encode(e), LinksOf(e));
    var c := AppendEvent(h, project, chain, e);
    var before := if chain == [] then [] else chain[1..];
    DecodeOneMore(before, c[|c| - 1], e);
    assert c[1..] == before + [c[|c| - 1]];
  }

  lemma EmptyRecords(h: Hash, project: Text)
    ensures Records(h, project, [], [])
  {
  }

  /** The chain of a log is accepted and records it. */
  lemma {:induction false} ChainOfLog(h: Hash, project: Text, log: seq<Event>)
    ensures Records(h, project, ChainOf(h, project, log), log)
    decreases |log|
  {
    if log == [] {
      EmptyRecords(h, project);
    } else {
      var init, e := log[..|log| - 1], log[|log| - 1];
      assert log == init + [e];
      var c := ChainOf(h, project, init);
      assert ChainOf(h, project, log) == AppendEvent(h, project, c, e);
      ChainOfLog(h, project, init);
      AppendRecords(h, project, c, init, e);
    }
  }

  lemma {:induction false} SameEntriesDecodeAlike(a: seq<Entry>, b: seq<Entry>)
    requires |a| == |b| && forall i :: 0 <= i < |a| ==> SameEntry(a[i], b[i])
    ensures DecodeEntries(a) == DecodeEntries(b)
    decreases |a|
  {
    if a != [] {
      var n := |a| - 1;
      SameEntriesDecodeAlike(a[..n], b[..n]);
      assert SameEntry(a[n], b[n]);
      ParsedIsWellFormed(a[n].payload);
      ParsedIsWellFormed(b[n].payload);
      DecodeIgnoresKeyOrder(Parse(a[n].payload).value, Parse(b[n].payload).value);
    }
  }

  /** The head of a project's chain pins its history: any accepted chain with that head decodes to the same log. */
  lemma HeadPinsHistory(h: Hash, project: Text, log: seq<Event>, chain: seq<Entry>)
    requires GoodHash(h) && Accepted(h, project, chain) && Head(chain) == Head(ChainOf(h, project, log))
    ensures DecodeChain(chain) == Some(log)
  {
    ChainOfLog(h, project, log);
    var c := ChainOf(h, project, log);
    HeadPinsChain(h, project, c, chain);
    if c != [] {
      forall i | 0 <= i < |c| - 1 ensures SameEntry(c[1..][i], chain[1..][i]) {
        assert SameEntry(c[i + 1], chain[i + 1]);
      }
      SameEntriesDecodeAlike(c[1..], chain[1..]);
    }
  }

  function ReplayChain(pending: nat -> bool, chain: seq<Entry>): Option<Tables>
  {
    match DecodeChain(chain) case Some(log) => ReplayLog(pending, log) case None => None
  }

  /**
   From bytes to tables: after any run with the approval setting held fixed, every accepted
   chain that ends in the project's head replays to the tables the project has.
   */
  lemma HeadPinsTables(h: Hash, project: Text, flag: bool, steps: seq<TxStep>, chain: seq<Entry>)
    requires GoodHash(h) && Accepted(h, project, chain)
    requires KeepsSetting(steps)
    requires Head(chain) == Head(ChainOf(h, project, Run(Initial(flag), steps).log))
    ensures ReplayChain((c: nat) => flag, chain) == Some(Run(Initial(flag), steps).tables)
  {
    HeadPinsHistory(h, project, Run(Initial(flag), steps).log, chain);
    ReplayWithFixedSetting(flag, steps);
  }

  /** What each company's signing read of the approval setting. */
  function StartedPending(s: State): nat -> bool
  {
    (c: nat) => c < |s.startedPending| && s.startedPending[c]
  }

  /**
   Whatever happened to the setting: every accepted chain that ends in the project's head replays to
   the project's tables under what each company's signing read, and under one setting for all to
   tables that differ at most, and exactly, in the status of companies that read another setting and
   that nobody decided on since.
   */
  lemma HeadPinsTablesUpToStart(h: Hash, project: Text, start: bool, steps: seq<TxStep>, chain: seq<Entry>, flag: bool)
    requires GoodHash(h) && Accepted(h, project, chain)
    requires Head(chain) == Head(ChainOf(h, project, Run(Initial(start), steps).log))
    ensures var s := Run(Initial(start), steps);
      ReplayChain(StartedPending(s), chain) == Some(s.tables) && ReplayChain((c: nat) => flag, chain).Some? &&
      DifferOnlyInStart(StartedPending(s), (c: nat) => flag, s.log, s.tables, ReplayChain((c: nat) => flag, chain).value)
  {
    var s := Run(Initial(start), steps);
    HeadPinsHistory(h, project, s.log, chain);
    ReplayRebuilds(StartedPending(s), start, steps);
    TwoReplays(StartedPending(s), (c: nat) => flag, s.log);
  }
}
