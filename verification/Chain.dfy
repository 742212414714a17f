/**
 The per-project hash chain: appending, verifying, and what an accepted chain pins.
 The hash function is a parameter. Where tampering matters it is injective and its
 output holds no newline, as a hexadecimal digest does.
 */
module Chain {
  import opened Wrappers
  import opened Text
  import opened Json
  import opened JsonParse
  import opened Canonical

  type Hash = Text -> Text

  /** The row ids an entry names; the hash does not cover them. */
  datatype Links = Links(
    signature: Option<nat>, version: Option<nat>, member: Option<nat>, corporate: Option<nat>, waiver: Option<nat>)

  const NO_LINKS := Links(None, None, None, None, None)

  datatype Entry = Entry(
    seqNo: int, kind: Text, payload: Text, prevHash: Text, entryHash: Text, links: Links)

  const GENESIS_PREV: Text := [71, 69, 78, 69, 83, 73, 83]
  const GENESIS_KIND: Text := [103, 101, 110, 101, 115, 105, 115]
  const PROJECT_ID_KEY: Text := [112, 114, 111, 106, 101, 99, 116, 73, 100]

  function Material(seqNo: int, project: Text, kind: Text, prevHash: Text, payload: Json): Text
  {
    Decimal(seqNo) + ([NEWLINE] + (project + ([NEWLINE] + (kind + ([NEWLINE] + (prevHash + ([NEWLINE] + CanonicalJson(payload))))))))
  }

  function ComputeEntryHash(h: Hash, seqNo: int, project: Text, kind: Text, prevHash: Text, payload: Json): Text
  {
    h(Material(seqNo, project, kind, prevHash, payload))
  }

  function MakeEntry(h: Hash, seqNo: int, project: Text, kind: Text, prevHash: Text, payload: Json, links: Links): Entry
  {
    Entry(seqNo, kind, Stringify(payload), prevHash,
          ComputeEntryHash(h, seqNo, project, kind, prevHash, payload), links)
  }

  function Genesis(h: Hash, project: Text): Entry
  {
    MakeEntry(h, 0, project, GENESIS_KIND, GENESIS_PREV, Obj([(PROJECT_ID_KEY, Str(project))]), NO_LINKS)
  }

  /** The chain after one append: the genesis entry is written first when there is none. */
  function Append(h: Hash, project: Text, chain: seq<Entry>, kind: Text, payload: Json, links: Links): seq<Entry>
  {
    if chain == [] then
      var genesis := Genesis(h, project);
      [genesis, MakeEntry(h, 1, project, kind, genesis.entryHash, payload, links)]
    else
      var last := chain[|chain| - 1];
      chain + [MakeEntry(h, last.seqNo + 1, project, kind, last.entryHash, payload, links)]
  }

  function Head(chain: seq<Entry>): Option<Text>
  {
    if chain == [] then None else Some(chain[|chain| - 1].entryHash)
  }

  // ---- verification ----

  datatype Fault = MissingGenesis | Gap | PrevMismatch | HashMismatch

  datatype VerifyResult = Intact(entries: nat, head: Option<Text>) | Broken(atSeq: int, reason: Fault)

  function ExpectedPrev(chain: seq<Entry>, i: nat): Text
    requires i < |chain|
  {
    if i == 0 then GENESIS_PREV else chain[i - 1].entryHash
  }

  predicate Rehashes(h: Hash, project: Text, e: Entry)
  {
    var payload := Parse(e.payload);
    payload.Some? && ComputeEntryHash(h, e.seqNo, project, e.kind, e.prevHash, payload.value) == e.entryHash
  }

  /** The rule an entry breaks, if any, judged against the entry before it. */
  function FaultAt(h: Hash, project: Text, chain: seq<Entry>, i: nat): Option<Fault>
    requires i < |chain|
  {
    var e := chain[i];
    if i == 0 && (e.seqNo != 0 || e.kind != GENESIS_KIND || e.prevHash != GENESIS_PREV) then Some(MissingGenesis)
    else if e.seqNo != i then Some(Gap)
    else if e.prevHash != ExpectedPrev(chain, i) then Some(PrevMismatch)
    else if !Rehashes(h, project, e) then Some(HashMismatch)
    else None
  }

  predicate Accepted(h: Hash, project: Text, chain: seq<Entry>)
  {
    forall i :: 0 <= i < |chain| ==> FaultAt(h, project, chain, i) == None
  }

  /**
   Accepts exactly the well-formed chains; of any other it names the first entry that breaks
   a rule, and which rule.
   */
  method VerifyChain(h: Hash, project: Text, entries: seq<Entry>) returns (r: VerifyResult)
    ensures r.Intact? <==> Accepted(h, project, entries)
    ensures r.Intact? ==> r.entries == |entries| && r.head == Head(entries)
    ensures r.Broken? ==> exists i ::
      0 <= i < |entries| && FaultAt(h, project, entries, i) == Some(r.reason) && r.atSeq == entries[i].seqNo &&
      (forall j :: 0 <= j < i ==> FaultAt(h, project, entries, j) == None)
  {
    if entries == [] {
      return Intact(0, None);
    }
    var genesis := entries[0];
    if genesis.seqNo != 0 || genesis.kind != GENESIS_KIND || genesis.prevHash != GENESIS_PREV {
      assert FaultAt(h, project, entries, 0) == Some(MissingGenesis);
      return Broken(genesis.seqNo, MissingGenesis);
    }
    var prevEntryHash: Option<Text> := None;
    for i := 0 to |entries|
      invariant forall j :: 0 <= j < i ==> FaultAt(h, project, entries, j) == None
      invariant prevEntryHash == Head(entries[..i])
    {
      var e := entries[i];
      if e.seqNo != i {
        assert FaultAt(h, project, entries, i) == Some(Gap);
        return Broken(e.seqNo, Gap);
      }
      var expectedPrev := if i == 0 then Some(GENESIS_PREV) else prevEntryHash;
      if Some(e.prevHash) != expectedPrev {
        assert FaultAt(h, project, entries, i) == Some(PrevMismatch);
        return Broken(e.seqNo, PrevMismatch);
      }
      var payload := Parse(e.payload);
      if payload == None {
        assert FaultAt(h, project, entries, i) == Some(HashMismatch);
        return Broken(e.seqNo, HashMismatch);
      }
      var recomputed := ComputeEntryHash(h, e.seqNo, project, e.kind, e.prevHash, payload.value);
      if recomputed != e.entryHash {
        assert FaultAt(h, project, entries, i) == Some(HashMismatch);
        return Broken(e.seqNo, HashMismatch);
      }
      prevEntryHash := Some(e.entryHash);
    }
    assert entries[..|entries|] == entries;
    r := Intact(|entries|, prevEntryHash);
  }

  // ---- append keeps a chain accepted ----

  lemma MadeEntryRehashes(h: Hash, seqNo: int, project: Text, kind: Text, prevHash: Text, payload: Json, links: Links)
    requires WellFormed(payload)
    ensures Rehashes(h, project, MakeEntry(h, seqNo, project, kind, prevHash, payload, links))
  {
    StoredValueKeepsItsText(payload);
  }

  /** An entry that extends an accepted chain: the next number, the head's hash, and its own hash right. */
  predicate Extends(h: Hash, project: Text, chain: seq<Entry>, e: Entry)
  {
    FaultAt(h, project, chain + [e], |chain|) == None
  }

  lemma ExtendedIsAccepted(h: Hash, project: Text, chain: seq<Entry>, e: Entry)
    requires Accepted(h, project, chain) && Extends(h, project, chain, e)
    ensures Accepted(h, project, chain + [e])
  {
    forall i | 0 <= i < |chain| ensures FaultAt(h, project, chain + [e], i) == None {
      assert FaultAt(h, project, chain, i) == None;
    }
  }

  /** The head of an accepted chain carries the number one below its length. */
  lemma AcceptedHead(h: Hash, project: Text, chain: seq<Entry>)
    requires Accepted(h, project, chain) && chain != []
    ensures chain[|chain| - 1].seqNo == |chain| - 1
    ensures chain[0].kind == GENESIS_KIND
  {
    assert FaultAt(h, project, chain, |chain| - 1) == None;
    assert FaultAt(h, project, chain, 0) == None;
  }

  /** Appending, the lazy genesis included, takes an accepted chain to one whose head is the new entry. */
  lemma AppendKeepsAccepted(h: Hash, project: Text, chain: seq<Entry>, kind: Text, payload: Json, links: Links)
    requires Accepted(h, project, chain) && WellFormed(payload)
    ensures var c := Append(h, project, chain, kind, payload, links);
      Accepted(h, project, c) && chain <= c && c != [] &&
      |c| == (if chain == [] then 2 else |chain| + 1) &&
      var e := c[|c| - 1];
      e.seqNo == |c| - 1 && e.kind == kind && e.links == links && Parse(e.payload) == Some(Clean(payload)) &&
      Head(c) == Some(e.entryHash)
  {
    StoredValueKeepsItsText(payload);
    if chain == [] {
      var genesis := Genesis(h, project);
      MadeEntryRehashes(h, 0, project, GENESIS_KIND, GENESIS_PREV, Obj([(PROJECT_ID_KEY, Str(project))]), NO_LINKS);
      assert Extends(h, project, [], genesis) by { assert [] + [genesis] == [genesis]; }
      ExtendedIsAccepted(h, project, [], genesis);
      assert [] + [genesis] == [genesis];
      var e := MakeEntry(h, 1, project, kind, genesis.entryHash, payload, links);
      MadeEntryRehashes(h, 1, project, kind, genesis.entryHash, payload, links);
      assert [genesis] + [e] == [genesis, e];
      assert Extends(h, project, [genesis], e);
      ExtendedIsAccepted(h, project, [genesis], e);
    } else {
      AcceptedHead(h, project, chain);
      var last := chain[|chain| - 1];
      var e := MakeEntry(h, last.seqNo + 1, project, kind, last.entryHash, payload, links);
      MadeEntryRehashes(h, last.seqNo + 1, project, kind, last.entryHash, payload, links);
      assert Extends(h, project, chain, e);
      ExtendedIsAccepted(h, project, chain, e);
    }
  }

  // ---- what a head pins ----

  /** Injective, and every digest on one line. */
  ghost predicate GoodHash(h: Hash)
  {
    (forall a, b :: h(a) == h(b) ==> a == b) && (forall a :: NoNewline(h(a)))
  }

  lemma SplitAtFirstNewline(a: Text, b: Text, x: Text, y: Text)
    requires NoNewline(a) && NoNewline(b)
    requires a + ([NEWLINE] + x) == b + ([NEWLINE] + y)
    ensures a == b && x == y
  {
    var s := a + ([NEWLINE] + x);
    var t := b + ([NEWLINE] + y);
    assert s[|a|] == NEWLINE && t[|b|] == NEWLINE;
    assert forall i :: 0 <= i < |a| ==> s[i] == a[i] != NEWLINE;
    assert forall i :: 0 <= i < |b| ==> t[i] == b[i] != NEWLINE;
    assert a == s[..|a|] && b == t[..|b|];
    assert x == s[|a| + 1..] && y == t[|b| + 1..];
  }

  lemma SplitAtLastNewline(a: Text, b: Text, x: Text, y: Text)
    requires NoNewline(x) && NoNewline(y)
    requires a + ([NEWLINE] + x) == b + ([NEWLINE] + y)
    ensures a == b && x == y
  {
    var s := a + ([NEWLINE] + x);
    var t := b + ([NEWLINE] + y);
    assert s[|a|] == NEWLINE && t[|b|] == NEWLINE;
    assert forall i :: |a| < i < |s| ==> s[i] == x[i - |a| - 1] != NEWLINE;
    assert forall i :: |b| < i < |t| ==> t[i] == y[i - |b| - 1] != NEWLINE;
    assert a == s[..|a|] && b == t[..|b|];
    assert x == s[|a| + 1..] && y == t[|b| + 1..];
  }

  /** The hashed text determines every part, for any kind at all, newlines in it included. */
  lemma MaterialIsExact(
    project: Text, n: int, m: int, kind: Text, kind': Text, prev: Text, prev': Text, p: Json, p': Json)
    requires NoNewline(prev) && NoNewline(prev') && WellFormed(p) && WellFormed(p')
    requires Material(n, project, kind, prev, p) == Material(m, project, kind', prev', p')
    ensures n == m && kind == kind' && prev == prev' && Equivalent(p, p')
  {
    var c, c' := CanonicalJson(p), CanonicalJson(p');
    var b, b' := prev + ([NEWLINE] + c), prev' + ([NEWLINE] + c');
    var a, a' := kind + ([NEWLINE] + b), kind' + ([NEWLINE] + b');
    var tail, tail' := project + ([NEWLINE] + a), project + ([NEWLINE] + a');
    DecimalHasNoNewline(n);
    DecimalHasNoNewline(m);
    SplitAtFirstNewline(Decimal(n), Decimal(m), tail, tail');
    DecimalIsInjective(n, m);
    assert a == tail[|project| + 1..] && a' == tail'[|project| + 1..];
    CanonicalJsonIsOneLine(p);
    CanonicalJsonIsOneLine(p');
    LastLineSplits(kind, prev, c, kind', prev', c');
    CanonicalJsonIsExact(p, p');
  }

  lemma LastLineSplits(kind: Text, prev: Text, c: Text, kind': Text, prev': Text, c': Text)
    requires NoNewline(prev) && NoNewline(prev') && NoNewline(c) && NoNewline(c')
    requires kind + ([NEWLINE] + (prev + ([NEWLINE] + c))) == kind' + ([NEWLINE] + (prev' + ([NEWLINE] + c')))
    ensures kind == kind' && prev == prev' && c == c'
  {
    var k, k' := kind + ([NEWLINE] + prev), kind' + ([NEWLINE] + prev');
    assert k + ([NEWLINE] + c) == kind + ([NEWLINE] + (prev + ([NEWLINE] + c)));
    assert k' + ([NEWLINE] + c') == kind' + ([NEWLINE] + (prev' + ([NEWLINE] + c')));
    SplitAtLastNewline(k, k', c, c');
    SplitAtLastNewline(kind, kind', prev, prev');
  }

  /** Everything the hash covers is the same in both entries, the payload up to key order. */
  ghost predicate SameEntry(e: Entry, f: Entry)
  {
    e.seqNo == f.seqNo && e.kind == f.kind && e.prevHash == f.prevHash && e.entryHash == f.entryHash &&
    Parse(e.payload).Some? && Parse(f.payload).Some? && Equivalent(Parse(e.payload).value, Parse(f.payload).value)
  }

  lemma SameHashSameEntry(h: Hash, project: Text, e: Entry, f: Entry)
    requires GoodHash(h) && Rehashes(h, project, e) && Rehashes(h, project, f) && e.entryHash == f.entryHash
    requires NoNewline(e.prevHash) && NoNewline(f.prevHash)
    ensures SameEntry(e, f)
  {
    var p, q := Parse(e.payload).value, Parse(f.payload).value;
    ParsedIsWellFormed(e.payload);
    ParsedIsWellFormed(f.payload);
    MaterialIsExact(project, e.seqNo, f.seqNo, e.kind, f.kind, e.prevHash, f.prevHash, p, q);
  }

  lemma PrevIsOneLine(h: Hash, project: Text, chain: seq<Entry>, i: nat)
    requires GoodHash(h) && Accepted(h, project, chain) && i < |chain|
    ensures NoNewline(chain[i].prevHash) && Rehashes(h, project, chain[i])
    ensures chain[i].seqNo == i && chain[i].prevHash == ExpectedPrev(chain, i)
  {
    assert FaultAt(h, project, chain, i) == None;
    if i > 0 {
      assert FaultAt(h, project, chain, i - 1) == None;
      assert Rehashes(h, project, chain[i - 1]);
    }
  }

  lemma EqualAt(h: Hash, project: Text, a: seq<Entry>, b: seq<Entry>, i: nat)
    requires GoodHash(h) && Accepted(h, project, a) && Accepted(h, project, b)
    requires i < |a| && i < |b| && a[i].entryHash == b[i].entryHash
    ensures SameEntry(a[i], b[i])
    ensures i > 0 ==> a[i - 1].entryHash == b[i - 1].entryHash
  {
    PrevIsOneLine(h, project, a, i);
    PrevIsOneLine(h, project, b, i);
    SameHashSameEntry(h, project, a[i], b[i]);
  }

  lemma {:induction false} EqualFrom(h: Hash, project: Text, a: seq<Entry>, b: seq<Entry>, i: nat)
    requires GoodHash(h) && Accepted(h, project, a) && Accepted(h, project, b)
    requires i < |a| && i < |b| && a[i].entryHash == b[i].entryHash
    ensures forall j :: 0 <= j <= i ==> SameEntry(a[j], b[j])
  {
    EqualAt(h, project, a, b, i);
    if i > 0 {
      EqualFrom(h, project, a, b, i - 1);
    }
  }

  /**
   Tamper evidence: two accepted chains of a project with the same head have the same length
   and agree in every number, kind, previous hash and payload (up to key order).
   */
  lemma HeadPinsChain(h: Hash, project: Text, a: seq<Entry>, b: seq<Entry>)
    requires GoodHash(h) && Accepted(h, project, a) && Accepted(h, project, b) && Head(a) == Head(b)
    ensures |a| == |b| && forall j :: 0 <= j < |a| ==> SameEntry(a[j], b[j])
  {
    if a != [] {
      var i, j := |a| - 1, |b| - 1;
      PrevIsOneLine(h, project, a, i);
      PrevIsOneLine(h, project, b, j);
      SameHashSameEntry(h, project, a[i], b[j]);
      EqualFrom(h, project, a, b, i);
    }
  }
}
