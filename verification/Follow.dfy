/**
 Following a moved project's chain in Legal: what an entry asks for, reading the chain by pages
 counted from its newest end while it grows, and a pass that may fail at any call.
 */
module Follow {
  import opened Wrappers
  import opened Text
  import opened Json
  import opened JsonParse
  import opened Ledger

  datatype ChainEntry = ChainEntry(seqNo: int, kind: Text, payload: Text, actor: Option<Text>)

  const PER_PAGE := 200
  const STAFF_PREFIX: Text := [115, 116, 97, 102, 102, 58]

  // ---- what one entry asks for ----

  datatype FollowStep = Author(ghId: int, ghLogin: Option<Text>) | All

  /** The payload's fields; none where it is not a JSON object. */
  function PayloadOf(e: ChainEntry): seq<Field>
  {
    match Parse(e.payload) case Some(Obj(fields)) => fields case _ => []
  }

  predicate ByStaff(e: ChainEntry)
  {
    e.actor.Some? && STAFF_PREFIX <= e.actor.value
  }

  function StepFor(e: ChainEntry): Option<FollowStep>
  {
    if !ByStaff(e) then None
    else if e.kind == CCLA_REJECTED then None
    else if e.kind == SIGNATURE_REVOKED || e.kind == WAIVER_GRANTED || e.kind == WAIVER_REVOKED then
      var payload := PayloadOf(e);
      var ghId, ghLogin := At(payload, GH_ID_KEY), At(payload, GH_LOGIN_KEY);
      if ghId.Num? then Some(Author(ghId.number, if ghLogin.Str? then Some(ghLogin.text) else None)) else Some(All)
    else Some(All)
  }

  /** Nothing is asked for exactly of entries staff did not write and of rejected companies. */
  lemma StepIsExact(e: ChainEntry)
    ensures StepFor(e) == None <==> !ByStaff(e) || e.kind == CCLA_REJECTED
    ensures StepFor(e).Some? && StepFor(e).value.Author? ==>
      At(PayloadOf(e), GH_ID_KEY) == Num(StepFor(e).value.ghId) && e.kind in {SIGNATURE_REVOKED, WAIVER_GRANTED, WAIVER_REVOKED}
  {
  }

  // ---- pages from the newest end ----

  function Reverse<T>(s: seq<T>): (r: seq<T>)
    ensures |r| == |s| && forall i :: 0 <= i < |s| ==> r[i] == s[|s| - 1 - i]
  {
    seq(|s|, i requires 0 <= i < |s| => s[|s| - 1 - i])
  }

  lemma ReverseTwice<T>(s: seq<T>)
    ensures Reverse(Reverse(s)) == s
  {
  }

  lemma ReverseConcat<T>(a: seq<T>, b: seq<T>)
    ensures Reverse(a + b) == Reverse(b) + Reverse(a)
  {
  }

  function Max0(n: int): nat { if n < 0 then 0 else n }

  /** Where a page of a chain of `n` entries starts and ends. */
  function Low(n: nat, page: nat): nat { Max0(n - PER_PAGE * page) }

  function High(n: nat, page: nat): nat
    requires page >= 1
  {
    Max0(n - PER_PAGE * (page - 1))
  }

  function Pages(n: nat): nat { (n + PER_PAGE - 1) / PER_PAGE }

  lemma LastPageReachesStart(n: nat, page: nat)
    requires page >= Pages(n)
    ensures Low(n, page) == 0
  {
  }

  function PageItems(chain: seq<ChainEntry>, page: nat): seq<ChainEntry>
    requires page >= 1
  {
    Reverse(chain[Low(|chain|, page)..High(|chain|, page)])
  }

  function Newer(items: seq<ChainEntry>, followed: int): seq<ChainEntry>
  {
    if items == [] then []
    else Newer(items[..|items| - 1], followed) + if items[|items| - 1].seqNo > followed then [items[|items| - 1]] else []
  }

  predicate Numbered(chain: seq<ChainEntry>)
  {
    forall i :: 0 <= i < |chain| ==> chain[i].seqNo == i
  }

  function Past(followed: int, low: nat, high: nat): (r: nat)
    requires low <= high
    ensures low <= r <= high
  {
    if followed + 1 < low then low else if followed + 1 > high then high else followed + 1
  }

  lemma NewerOneMore(items: seq<ChainEntry>, e: ChainEntry, followed: int)
    ensures Newer(items + [e], followed) == Newer(items, followed) + if e.seqNo > followed then [e] else []
  {
    assert (items + [e])[..|items|] == items;
  }

  lemma ReverseRun(chain: seq<ChainEntry>, low: nat, high: nat)
    requires low < high <= |chain|
    ensures Reverse(chain[low..high]) == Reverse(chain[low + 1..high]) + [chain[low]]
  {
  }

  /** Entries run in order of number, so the newer ones of a run are its end. */
  lemma {:induction false} NewerOfRun(chain: seq<ChainEntry>, low: nat, high: nat, followed: int)
    requires Numbered(chain) && low <= high <= |chain|
    ensures Newer(Reverse(chain[low..high]), followed) == Reverse(chain[Past(followed, low, high)..high])
    decreases high - low
  {
    if low < high {
      NewerOfRun(chain, low + 1, high, followed);
      ReverseRun(chain, low, high);
      NewerOneMore(Reverse(chain[low + 1..high]), chain[low], followed);
    }
  }

  lemma RunMembers(full: seq<ChainEntry>, low: nat, high: nat)
    requires Numbered(full) && low <= high <= |full|
    ensures forall i :: low <= i < high ==> full[i] in Reverse(full[low..high])
    ensures forall e :: e in Reverse(full[low..high]) ==> low <= e.seqNo < high && e == full[e.seqNo]
  {
    var run := full[low..high];
    var r := Reverse(run);
    forall i | low <= i < high ensures full[i] in r {
      assert r[|run| - 1 - (i - low)] == full[i];
    }
    forall e | e in r ensures low <= e.seqNo < high && e == full[e.seqNo] {
      var j :| 0 <= j < |r| && r[j] == e;
      assert e == full[low + (|run| - 1 - j)];
    }
  }

  lemma NewerOfPage(full: seq<ChainEntry>, n: nat, page: nat, followed: int)
    requires Numbered(full) && n <= |full| && page >= 1
    ensures var l, h := Low(n, page), High(n, page);
      Newer(PageItems(full[..n], page), followed) == Reverse(full[Past(followed, l, h)..h])
  {
    var l, h := Low(n, page), High(n, page);
    NewerOfRun(full[..n], l, h, followed);
    assert full[..n][Past(followed, l, h)..h] == full[Past(followed, l, h)..h];
  }

  // ---- reading past what was followed ----

  /** Lengths the chain has at each read, `None` where the read fails; it only grows. */
  ghost predicate Growing(views: seq<Option<nat>>, from: nat, full: nat)
  {
    (forall k :: 0 <= k < |views| && views[k].Some? ==> from <= views[k].value <= full) &&
    (forall j, k :: 0 <= j < k < |views| && views[j].Some? && views[k].Some? ==> views[j].value <= views[k].value)
  }

  /** `found` holds the entries past `followed` below `top`, every one from `low` on, and nothing else. */
  ghost predicate Covers(full: seq<ChainEntry>, found: seq<ChainEntry>, followed: int, low: nat, top: nat)
  {
    top <= |full| && (forall i :: low <= i < top && i > followed ==> full[i] in found) &&
    (forall e :: e in found ==> 0 <= e.seqNo < top && followed < e.seqNo && e == full[e.seqNo])
  }

  lemma PageCovers(
    full: seq<ChainEntry>, found: seq<ChainEntry>, followed: int, low: nat, top: nat, n: nat, page: nat)
    requires Numbered(full) && n <= |full| && page >= 1 && followed >= -1
    requires Covers(full, found, followed, low, top) && low <= High(n, page)
    ensures var all := found + Newer(PageItems(full[..n], page), followed);
      Covers(full, all, followed, Low(n, page), if High(n, page) > top then High(n, page) else top)
  {
    var l, h := Low(n, page), High(n, page);
    NewerOfPage(full, n, page, followed);
    RunMembers(full, Past(followed, l, h), h);
  }

  lemma ShortNewer(full: seq<ChainEntry>, n: nat, page: nat, followed: int)
    requires Numbered(full) && n <= |full| && page >= 1
    requires |Newer(PageItems(full[..n], page), followed)| < |PageItems(full[..n], page)|
    ensures Low(n, page) <= followed
  {
    NewerOfRun(full[..n], Low(n, page), High(n, page), followed);
  }

  /** The pages of a chain that stood still, from the newest down to `low`. */
  ghost predicate Still(full: seq<ChainEntry>, found: seq<ChainEntry>, followed: int, n: nat, low: nat)
  {
    low <= n <= |full| && found == Reverse(full[Past(followed, low, n)..n])
  }

  lemma StillMore(full: seq<ChainEntry>, found: seq<ChainEntry>, followed: int, n: nat, page: nat)
    requires Numbered(full) && n <= |full| && page >= 1 && Still(full, found, followed, n, High(n, page))
    ensures Still(full, found + Newer(PageItems(full[..n], page), followed), followed, n, Low(n, page))
  {
    var l, h := Low(n, page), High(n, page);
    NewerOfPage(full, n, page, followed);
    var newer, before := full[Past(followed, l, h)..h], full[Past(followed, h, n)..n];
    ReverseConcat(newer, before);
    assert full[Past(followed, l, n)..n] == newer + before;
  }

  /** What the pages read so far bring, the last of them page `page` of a chain of `n` entries. */
  ghost predicate ReadDown(
    full: seq<ChainEntry>, found: seq<ChainEntry>, followed: int, from: nat, views: seq<Option<nat>>, page: nat, top: nat)
    requires 1 <= page <= |views| && views[page - 1].Some?
  {
    var n := views[page - 1].value;
    from <= top <= n <= |full| && Covers(full, found, followed, Low(n, page), top)
  }

  lemma FirstPage(full: seq<ChainEntry>, followed: int, from: nat, views: seq<Option<nat>>)
    requires Numbered(full) && followed >= -1 && Growing(views, from, |full|) && |views| >= 1 && views[0].Some?
    ensures views[0].value <= |full|
    ensures var n := views[0].value;
      ReadDown(full, [] + Newer(PageItems(full[..n], 1), followed), followed, from, views, 1, n)
  {
    var n := views[0].value;
    PageCovers(full, [], followed, n, 0, n, 1);
  }

  lemma NextPage(
    full: seq<ChainEntry>, found: seq<ChainEntry>, followed: int, from: nat, views: seq<Option<nat>>, page: nat, top: nat)
    returns (higher: nat)
    requires Numbered(full) && followed >= -1 && Growing(views, from, |full|)
    requires 1 <= page < |views| && views[page - 1].Some? && views[page].Some?
    requires ReadDown(full, found, followed, from, views, page, top)
    ensures views[page].value <= |full|
    ensures var n := views[page].value;
      ReadDown(full, found + Newer(PageItems(full[..n], page + 1), followed), followed, from, views, page + 1, higher)
  {
    var m, n := views[page - 1].value, views[page].value;
    assert m <= n && Low(m, page) <= High(n, page + 1);
    PageCovers(full, found, followed, Low(m, page), top, n, page + 1);
    higher := if High(n, page + 1) > top then High(n, page + 1) else top;
  }

  lemma ReadEnough(
    full: seq<ChainEntry>, found: seq<ChainEntry>, followed: int, from: nat, views: seq<Option<nat>>, page: nat, top: nat)
    requires Numbered(full) && followed >= -1 && 1 <= page <= |views| && views[page - 1].Some?
    requires ReadDown(full, found, followed, from, views, page, top)
    requires Low(views[page - 1].value, page) <= followed || Low(views[page - 1].value, page) == 0
    ensures Covers(full, Reverse(found), followed, 0, top)
  {
    var r := Reverse(found);
    forall e ensures e in r <==> e in found {
      if e in found {
        var i :| 0 <= i < |found| && found[i] == e;
        assert r[|found| - 1 - i] == e;
      }
      if e in r {
        var i :| 0 <= i < |r| && r[i] == e;
        assert found[|found| - 1 - i] == e;
      }
    }
  }

  // ---- in which order they come ----

  predicate Seen(full: seq<ChainEntry>, views: seq<Option<nat>>, pages: nat)
  {
    pages <= |views| && forall k :: 0 <= k < pages ==> views[k].Some? && views[k].value <= |full|
  }

  function NewerOnPage(full: seq<ChainEntry>, followed: int, n: nat, page: nat): seq<ChainEntry>
    requires n <= |full| && page >= 1
  {
    Newer(PageItems(full[..n], page), followed)
  }

  /** What the first `pages` reads bring, newest first on each page. */
  function Fetched(full: seq<ChainEntry>, followed: int, views: seq<Option<nat>>, pages: nat): seq<ChainEntry>
    requires Seen(full, views, pages)
  {
    if pages == 0 then []
    else Fetched(full, followed, views, pages - 1) + NewerOnPage(full, followed, views[pages - 1].value, pages)
  }

  /** No further page is asked for: this one held an entry already followed, or it was the last. */
  predicate Stops(full: seq<ChainEntry>, followed: int, n: nat, page: nat)
    requires n <= |full| && page >= 1
  {
    |NewerOnPage(full, followed, n, page)| < |PageItems(full[..n], page)| || page >= Pages(n)
  }

  /** The first `pages` reads are those made: none fails, and the last is the first that stops. */
  ghost predicate ReadsEnd(full: seq<ChainEntry>, followed: int, views: seq<Option<nat>>, pages: nat)
  {
    pages >= 1 && Seen(full, views, pages) && Stops(full, followed, views[pages - 1].value, pages) &&
    forall k :: 0 <= k < pages - 1 ==> !Stops(full, followed, views[k].value, k + 1)
  }

  /** Every page that was read saw a chain of the same length. */
  predicate StoodStill(views: seq<Option<nat>>, pages: nat)
    requires 1 <= pages <= |views|
  {
    forall k :: 0 <= k < pages ==> views[k] == views[0]
  }

  predicate Ascending(entries: seq<ChainEntry>)
  {
    forall i, j :: 0 <= i < j < |entries| ==> entries[i].seqNo < entries[j].seqNo
  }

  /** A page that does not stop is wholly newer, and another lies below it. */
  lemma WhollyNewer(full: seq<ChainEntry>, followed: int, n: nat, page: nat)
    requires Numbered(full) && n <= |full| && page >= 1 && !Stops(full, followed, n, page)
    ensures Low(n, page) < High(n, page) <= n && followed < Low(n, page) == n - PER_PAGE * page
    ensures NewerOnPage(full, followed, n, page) == Reverse(full[Low(n, page)..High(n, page)])
  {
    NewerOfPage(full, n, page, followed);
  }

  /** The page after one that does not stop, if the chain grew in between, begins no lower than that one ended. */
  lemma GrowthRepeats(full: seq<ChainEntry>, followed: int, m: nat, n: nat, page: nat)
    requires Numbered(full) && m < n <= |full| && page >= 1 && !Stops(full, followed, m, page)
    ensures var upper, lower := NewerOnPage(full, followed, m, page), NewerOnPage(full, followed, n, page + 1);
      upper != [] && lower != [] && lower[0].seqNo >= upper[|upper| - 1].seqNo
  {
    WhollyNewer(full, followed, m, page);
    NewerOfPage(full, n, page + 1, followed);
    assert High(n, page + 1) == n - PER_PAGE * page > Low(m, page) > followed;
  }

  lemma {:induction false} FetchedGrows(full: seq<ChainEntry>, followed: int, views: seq<Option<nat>>, some: nat, pages: nat)
    requires some <= pages && Seen(full, views, pages)
    ensures Fetched(full, followed, views, some) <= Fetched(full, followed, views, pages)
    decreases pages
  {
    if some < pages {
      FetchedGrows(full, followed, views, some, pages - 1);
    }
  }

  lemma NotDescending(before: seq<ChainEntry>, upper: seq<ChainEntry>, lower: seq<ChainEntry>, all: seq<ChainEntry>)
    requires before + upper + lower <= all && upper != [] && lower != [] && lower[0].seqNo >= upper[|upper| - 1].seqNo
    ensures !Ascending(Reverse(all))
  {
    var r, i := Reverse(all), |before| + |upper|;
    assert all[i - 1] == (before + upper + lower)[i - 1] == upper[|upper| - 1];
    assert all[i] == (before + upper + lower)[i] == lower[0];
    assert r[|all| - 1 - i] == all[i] && r[|all| - i] == all[i - 1];
  }

  lemma FetchedTwoMore(full: seq<ChainEntry>, followed: int, views: seq<Option<nat>>, k: nat, pages: nat)
    requires Seen(full, views, pages) && k + 2 <= pages
    ensures Fetched(full, followed, views, k) + NewerOnPage(full, followed, views[k].value, k + 1) +
      NewerOnPage(full, followed, views[k + 1].value, k + 2) <= Fetched(full, followed, views, pages)
  {
    FetchedGrows(full, followed, views, k + 2, pages);
  }

  lemma GrowthIsSeen(full: seq<ChainEntry>, followed: int, views: seq<Option<nat>>, pages: nat, k: nat)
    requires Numbered(full) && Seen(full, views, pages) && k + 2 <= pages
    requires views[k].value < views[k + 1].value && !Stops(full, followed, views[k].value, k + 1)
    ensures !Ascending(Reverse(Fetched(full, followed, views, pages)))
  {
    GrowthRepeats(full, followed, views[k].value, views[k + 1].value, k + 1);
    FetchedTwoMore(full, followed, views, k, pages);
    NotDescending(
      Fetched(full, followed, views, k), NewerOnPage(full, followed, views[k].value, k + 1),
      NewerOnPage(full, followed, views[k + 1].value, k + 2), Fetched(full, followed, views, pages));
  }

  lemma {:induction false} FirstGrowth(views: seq<Option<nat>>, pages: nat) returns (k: nat)
    requires 1 <= pages <= |views| && !StoodStill(views, pages)
    ensures k + 1 < pages && views[k] != views[k + 1]
  {
    if pages >= 2 && views[pages - 2] != views[pages - 1] {
      k := pages - 2;
    } else {
      assert pages >= 2;
      k := FirstGrowth(views, pages - 1);
    }
  }

  /** On a chain that stood still the pages join up. */
  lemma {:induction false} StillFetched(full: seq<ChainEntry>, followed: int, views: seq<Option<nat>>, n: nat, pages: nat)
    requires Numbered(full) && Seen(full, views, pages) && n <= |full| && forall k :: 0 <= k < pages ==> views[k] == Some(n)
    ensures Still(full, Fetched(full, followed, views, pages), followed, n, Low(n, pages))
    decreases pages
  {
    if pages == 0 {
      assert full[Past(followed, n, n)..n] == [];
    } else {
      StillFetched(full, followed, views, n, pages - 1);
      StillMore(full, Fetched(full, followed, views, pages - 1), followed, n, pages);
    }
  }

  lemma StopReachesFollowed(full: seq<ChainEntry>, followed: int, n: nat, page: nat)
    requires Numbered(full) && n <= |full| && page >= 1 && Stops(full, followed, n, page)
    ensures Low(n, page) <= followed || Low(n, page) == 0
  {
    if |NewerOnPage(full, followed, n, page)| < |PageItems(full[..n], page)| {
      ShortNewer(full, n, page, followed);
    } else {
      LastPageReachesStart(n, page);
    }
  }

  lemma StillIsWhole(full: seq<ChainEntry>, followed: int, views: seq<Option<nat>>, n: nat, pages: nat)
    requires Numbered(full) && followed >= -1 && ReadsEnd(full, followed, views, pages) && n <= |full|
    requires forall k :: 0 <= k < pages ==> views[k] == Some(n)
    ensures Reverse(Fetched(full, followed, views, pages)) == full[Past(followed, 0, n)..n]
  {
    StillFetched(full, followed, views, n, pages);
    StopReachesFollowed(full, followed, n, pages);
    ReverseTwice(full[Past(followed, 0, n)..n]);
    assert Past(followed, Low(n, pages), n) == Past(followed, 0, n);
  }

  /**
   The entries come oldest first, none twice, exactly when the chain stood still while the pages
   were read, and exactly then they are the entries past `followed` and nothing else.
   */
  lemma OrderNeedsStillness(full: seq<ChainEntry>, followed: int, from: nat, views: seq<Option<nat>>, pages: nat)
    requires Numbered(full) && followed >= -1 && Growing(views, from, |full|) && ReadsEnd(full, followed, views, pages)
    ensures var r, n := Reverse(Fetched(full, followed, views, pages)), views[0].value;
      (Ascending(r) <==> StoodStill(views, pages)) &&
      (followed < n ==> (r == full[followed + 1..n] <==> StoodStill(views, pages)))
  {
    if StoodStill(views, pages) {
      StillIsWhole(full, followed, views, views[0].value, pages);
    } else {
      var k := FirstGrowth(views, pages);
      GrowthIsSeen(full, followed, views, pages, k);
    }
  }

  lemma TwoPages(full: seq<ChainEntry>)
    requires Numbered(full) && |full| == 202
    ensures NewerOnPage(full, -1, 201, 1) == Reverse(full[1..201]) && NewerOnPage(full, -1, 202, 2) == Reverse(full[0..2])
    ensures !Stops(full, -1, 201, 1) && Stops(full, -1, 202, 2)
  {
    NewerOfPage(full, 201, 1, -1);
    NewerOfPage(full, 202, 2, -1);
  }

  lemma TwoFetched(full: seq<ChainEntry>, views: seq<Option<nat>>)
    requires Numbered(full) && |full| == 202 && views == [Some(201), Some(202)]
    ensures Seen(full, views, 2) && Fetched(full, -1, views, 2) == Reverse(full[1..201]) + Reverse(full[0..2])
  {
    TwoPages(full);
    assert Fetched(full, -1, views, 0) == [];
    assert Fetched(full, -1, views, 1) == Reverse(full[1..201]);
  }

  /** One entry more between two reads: entry 1 comes twice. */
  lemma EntryComesTwice() returns (full: seq<ChainEntry>, views: seq<Option<nat>>)
    ensures Numbered(full) && Growing(views, 201, |full|) && ReadsEnd(full, -1, views, 2)
    ensures var r := Reverse(Fetched(full, -1, views, 2)); |r| == 202 && r[1] == full[1] == r[2]
  {
    full := seq(202, i => ChainEntry(i, [], [], None));
    views := [Some(201), Some(202)];
    TwoPages(full);
    TwoFetched(full, views);
    var all := Reverse(full[1..201]) + Reverse(full[0..2]);
    assert all[199] == full[1] == all[200];
  }

  /** The first `pages` reads are done, and none of them was the last. */
  ghost predicate ReadSoFar(
    full: seq<ChainEntry>, found: seq<ChainEntry>, followed: int, from: nat, views: seq<Option<nat>>, pages: nat, top: nat)
  {
    Seen(full, views, pages) && found == Fetched(full, followed, views, pages) &&
    (forall k :: 0 <= k < pages ==> !Stops(full, followed, views[k].value, k + 1)) &&
    (pages >= 1 ==> ReadDown(full, found, followed, from, views, pages, top))
  }

  /** One page more. */
  lemma ReadsPage(
    full: seq<ChainEntry>, found: seq<ChainEntry>, followed: int, from: nat, views: seq<Option<nat>>, pages: nat, top: nat)
    returns (higher: nat)
    requires Numbered(full) && followed >= -1 && Growing(views, from, |full|)
    requires ReadSoFar(full, found, followed, from, views, pages, top) && pages < |views| && views[pages].Some?
    ensures views[pages].value <= |full| && Seen(full, views, pages + 1)
    ensures var all := found + NewerOnPage(full, followed, views[pages].value, pages + 1);
      all == Fetched(full, followed, views, pages + 1) && ReadDown(full, all, followed, from, views, pages + 1, higher)
  {
    if pages == 0 {
      FirstPage(full, followed, from, views);
      higher := views[0].value;
    } else {
      higher := NextPage(full, found, followed, from, views, pages, top);
    }
  }

  lemma ReadsLast(
    full: seq<ChainEntry>, found: seq<ChainEntry>, followed: int, from: nat, views: seq<Option<nat>>, pages: nat, top: nat)
    requires Numbered(full) && followed >= -1 && ReadsEnd(full, followed, views, pages)
    requires found == Fetched(full, followed, views, pages) && ReadDown(full, found, followed, from, views, pages, top)
    ensures from <= top && Covers(full, Reverse(found), followed, 0, top)
  {
    StopReachesFollowed(full, followed, views[pages - 1].value, pages);
    ReadEnough(full, found, followed, from, views, pages, top);
  }

  /**
   The entries past `followed` as the reads bring them, none when a read fails first. However the
   chain grows between the reads, none is missing below `top`, which no entry fetched reaches and
   which is at least what the chain held before.
   */
  method EntriesPast(full: seq<ChainEntry>, followed: int, from: nat, views: seq<Option<nat>>)
    returns (r: Option<seq<ChainEntry>>, ghost top: nat, ghost pages: nat)
    requires Numbered(full) && followed >= -1 && Growing(views, from, |full|)
    ensures r.Some? ==> from <= top && Covers(full, r.value, followed, 0, top)
    ensures r.Some? ==> ReadsEnd(full, followed, views, pages) && r.value == Reverse(Fetched(full, followed, views, pages))
    ensures r.Some? ==> (Ascending(r.value) <==> StoodStill(views, pages))
    ensures r.None? ==> forall n :: !ReadsEnd(full, followed, views, n)
  {
    var found: seq<ChainEntry> := [];
    top, pages := 0, 0;
    for page := 1 to |views| + 1
      invariant ReadSoFar(full, found, followed, from, views, page - 1, top)
    {
      if views[page - 1] == None {
        return None, top, pages;
      }
      var n := views[page - 1].value;
      top := ReadsPage(full, found, followed, from, views, page - 1, top);
      var items := PageItems(full[..n], page);
      var newer := Newer(items, followed);
      found := found + newer;
      if |newer| < |items| || page >= Pages(n) {
        ReadsLast(full, found, followed, from, views, page, top);
        OrderNeedsStillness(full, followed, from, views, page);
        return Some(Reverse(found)), top, page;
      }
    }
    return None, top, pages;
  }

  // ---- one pass ----

  /** A re-gate asked for, with how much of the chain was there when it was. */
  datatype Request = Request(target: FollowStep, asOf: nat)

  predicate Targets(target: FollowStep, step: FollowStep)
  {
    target == All || (target.Author? && step.Author? && target.ghId == step.ghId)
  }

  /** Staff's entry, if it asks for anything, has been answered since it was on the chain. */
  ghost predicate Handled(e: ChainEntry, requests: seq<Request>)
  {
    StepFor(e) == None || exists i :: 0 <= i < |requests| && Answers(requests[i], e)
  }

  predicate Answers(r: Request, e: ChainEntry)
  {
    r.asOf > e.seqNo && StepFor(e).Some? && Targets(r.target, StepFor(e).value)
  }

  lemma HandledStays(e: ChainEntry, requests: seq<Request>, more: seq<Request>)
    requires Handled(e, requests) && requests <= more
    ensures Handled(e, more)
  {
    if StepFor(e) != None {
      var i :| 0 <= i < |requests| && Answers(requests[i], e);
      assert more[i] == requests[i];
    }
  }

  /** The authors some entries name, each once, in the order first named. */
  function Authors(found: seq<ChainEntry>): seq<(int, Option<Text>)>
  {
    if found == [] then []
    else
      var before, step := Authors(found[..|found| - 1]), StepFor(found[|found| - 1]);
      if step.Some? && step.value.Author? then SetAuthor(before, step.value.ghId, step.value.ghLogin) else before
  }

  function SetAuthor(authors: seq<(int, Option<Text>)>, ghId: int, login: Option<Text>): seq<(int, Option<Text>)>
  {
    if authors == [] then [(ghId, login)]
    else if authors[0].0 == ghId then [(ghId, login)] + authors[1..]
    else [authors[0]] + SetAuthor(authors[1..], ghId, login)
  }

  predicate Names(authors: seq<(int, Option<Text>)>, ghId: int)
  {
    exists i :: 0 <= i < |authors| && authors[i].0 == ghId
  }

  lemma {:induction false} SetAuthorNames(authors: seq<(int, Option<Text>)>, ghId: int, login: Option<Text>, other: int)
    ensures Names(SetAuthor(authors, ghId, login), other) <==> Names(authors, other) || other == ghId
  {
    var r := SetAuthor(authors, ghId, login);
    if authors == [] {
      assert r[0].0 == ghId;
    } else if authors[0].0 == ghId {
      assert r[0].0 == ghId && r[1..] == authors[1..];
      NamesFirst(r, other);
      NamesFirst(authors, other);
    } else {
      SetAuthorNames(authors[1..], ghId, login, other);
      assert r[1..] == SetAuthor(authors[1..], ghId, login);
      NamesFirst(r, other);
      NamesFirst(authors, other);
    }
  }

  lemma NamesFirst(authors: seq<(int, Option<Text>)>, ghId: int)
    requires authors != []
    ensures Names(authors, ghId) <==> authors[0].0 == ghId || Names(authors[1..], ghId)
  {
    if Names(authors[1..], ghId) {
      var i :| 0 <= i < |authors[1..]| && authors[1..][i].0 == ghId;
      assert authors[i + 1].0 == ghId;
    }
    if Names(authors, ghId) && authors[0].0 != ghId {
      var i :| 0 <= i < |authors| && authors[i].0 == ghId;
      assert authors[1..][i - 1].0 == ghId;
    }
  }

  /** Exactly the accounts the entries name are asked about. */
  lemma {:induction false} AuthorsAreExact(found: seq<ChainEntry>, ghId: int)
    ensures Names(Authors(found), ghId) <==> exists e ::
      e in found && StepFor(e).Some? && StepFor(e).value.Author? && StepFor(e).value.ghId == ghId
    decreases |found|
  {
    if found != [] {
      var init, e := found[..|found| - 1], found[|found| - 1];
      assert found == init + [e];
      AuthorsAreExact(init, ghId);
      var step := StepFor(e);
      if step.Some? && step.value.Author? {
        SetAuthorNames(Authors(init), step.value.ghId, step.value.ghLogin, ghId);
      }
    }
  }

  function RequestsFor(authors: seq<(int, Option<Text>)>, asOf: nat): (r: seq<Request>)
    ensures |r| == |authors|
  {
    seq(|authors|, i requires 0 <= i < |authors| => Request(Author(authors[i].0, authors[i].1), asOf))
  }

  predicate AsksForAll(found: seq<ChainEntry>)
  {
    exists i :: 0 <= i < |found| && StepFor(found[i]) == Some(All)
  }

  /** What a pass asks for: the whole project if any entry does, else each author named. */
  function RequestsOf(found: seq<ChainEntry>, asOf: nat): seq<Request>
  {
    if AsksForAll(found) then [Request(All, asOf)] else RequestsFor(Authors(found), asOf)
  }

  lemma RequestsHandle(found: seq<ChainEntry>, asOf: nat, e: ChainEntry)
    requires e in found && e.seqNo < asOf
    ensures Handled(e, RequestsOf(found, asOf))
  {
    var requests := RequestsOf(found, asOf);
    if StepFor(e) != None {
      if AsksForAll(found) {
        assert Answers(requests[0], e);
      } else {
        var i :| 0 <= i < |found| && found[i] == e;
        assert StepFor(found[i]).value != All;
        AuthorsAreExact(found, StepFor(e).value.ghId);
        var k :| 0 <= k < |Authors(found)| && Authors(found)[k].0 == StepFor(e).value.ghId;
        assert Answers(requests[k], e);
      }
    }
  }

  lemma HandledLater(e: ChainEntry, before: seq<Request>, requests: seq<Request>)
    requires Handled(e, requests)
    ensures Handled(e, before + requests)
  {
    if StepFor(e) != None {
      var i :| 0 <= i < |requests| && Answers(requests[i], e);
      assert (before + requests)[|before| + i] == requests[i];
    }
  }

  /** Every staff entry past where following began and up to `followed` has been answered. */
  ghost predicate AllHandled(chain: seq<ChainEntry>, baseline: int, followed: int, requests: seq<Request>)
  {
    -1 <= baseline <= followed < |chain| && forall j :: baseline < j <= followed ==> Handled(chain[j], requests)
  }

  lemma AllHandledStays(
    chain: seq<ChainEntry>, full: seq<ChainEntry>, baseline: int, followed: int, before: seq<Request>, requests: seq<Request>)
    requires AllHandled(chain, baseline, followed, before) && chain <= full && before <= requests
    ensures AllHandled(full, baseline, followed, requests)
  {
    forall j | baseline < j <= followed ensures Handled(full[j], requests) {
      assert Handled(chain[j], before);
      HandledStays(chain[j], before, requests);
    }
  }

  lemma PassHandles(
    full: seq<ChainEntry>, found: seq<ChainEntry>, baseline: int, followed: int, top: nat, before: seq<Request>)
    requires Numbered(full) && Covers(full, found, followed, 0, top) && followed < top
    requires AllHandled(full, baseline, followed, before)
    ensures AllHandled(full, baseline, top - 1, before + RequestsOf(found, top))
  {
    forall j | baseline < j < top ensures Handled(full[j], before + RequestsOf(found, top)) {
      if j > followed {
        RequestsHandle(found, top, full[j]);
        HandledLater(full[j], before, RequestsOf(found, top));
      } else {
        HandledStays(full[j], before, before + RequestsOf(found, top));
      }
    }
  }

  class Follower {
    /** The number of the newest entry followed, none until the first pass. */
    var followed: Option<int>
    /** The re-gates asked for, in order. */
    ghost var requests: seq<Request>
    /** Legal's chain, as far as it has come, and where following began. */
    ghost var chain: seq<ChainEntry>
    ghost var baseline: int

    constructor ()
      ensures Valid() && followed == None && chain == []
    {
      followed, requests, chain, baseline := None, [], [], -1;
    }

    ghost predicate Valid()
      reads this
    {
      Numbered(chain) && (followed.Some? ==> AllHandled(chain, baseline, followed.value, requests))
    }

    /** One author after the other; stops at the first that fails. */
    method ReGateAuthors(authors: seq<(int, Option<Text>)>, ghost asOf: nat, works: nat -> bool) returns (ok: bool)
      modifies this`requests
      ensures old(requests) <= requests
      ensures ok ==> requests == old(requests) + RequestsFor(authors, asOf)
    {
      for k := 0 to |authors|
        invariant requests == old(requests) + RequestsFor(authors[..k], asOf)
      {
        if !works(k) {
          return false;
        }
        RequestsGrow(old(requests), authors, k, asOf);
        requests := requests + [Request(Author(authors[k].0, authors[k].1), asOf)];
      }
      assert authors[..|authors|] == authors;
      ok := true;
    }

    method ReGate(found: seq<ChainEntry>, ghost asOf: nat, works: nat -> bool) returns (ok: bool)
      modifies this`requests
      ensures old(requests) <= requests
      ensures ok ==> requests == old(requests) + RequestsOf(found, asOf)
    {
      if AsksForAll(found) {
        ok := works(0);
        if ok {
          requests := requests + [Request(All, asOf)];
        }
      } else {
        ok := ReGateAuthors(Authors(found), asOf, works);
      }
    }

    /**
     One pass. `full` is Legal's chain as it stands when the pass ends; `view` and `views` are how
     long it was at each read, none where the read failed; `works` says which re-gates succeed and
     `saved` whether the note is stored. A failure anywhere leaves the note where it was; otherwise
     the note reaches at least the newest entry there was when the pass began.
     */
    method FollowProject(
      full: seq<ChainEntry>, view: Option<nat>, views: seq<Option<nat>>, works: nat -> bool, saved: bool)
      returns (failed: bool)
      requires Valid() && chain <= full && Numbered(full)
      requires view.Some? ==> |chain| <= view.value <= |full| && Growing(views, view.value, |full|)
      modifies this
      ensures Valid() && chain == full && old(requests) <= requests
      ensures old(followed).Some? ==> followed.Some? && followed.value >= old(followed).value && baseline == old(baseline)
      ensures failed ==> followed == old(followed)
      ensures !failed ==> view.Some? && followed.Some? && followed.value >= view.value - 1
    {
      ghost var known := chain;
      chain := full;
      if followed.Some? {
        AllHandledStays(known, full, baseline, followed.value, requests, requests);
      }
      if view == None {
        return true;
      }
      var head := view.value - 1;
      if followed == None {
        if !saved {
          return true;
        }
        baseline := head;
        followed := Some(head);
        return false;
      }
      if head <= followed.value {
        return false;
      }
      var entries, top, _ := EntriesPast(full, followed.value, view.value, views);
      if entries == None {
        return true;
      }
      ghost var before := requests;
      var ok := ReGate(entries.value, top, works);
      AllHandledStays(full, full, baseline, followed.value, before, requests);
      if !ok || !saved {
        return true;
      }
      PassHandles(full, entries.value, baseline, followed.value, top, before);
      var newest := Newest(head, entries.value);
      NewestIsBelow(full, entries.value, followed.value, top, head, newest);
      followed := Some(newest);
      failed := false;
    }
  }

  lemma RequestsGrow(before: seq<Request>, authors: seq<(int, Option<Text>)>, k: nat, asOf: nat)
    requires k < |authors|
    ensures before + RequestsFor(authors[..k], asOf) + [Request(Author(authors[k].0, authors[k].1), asOf)] ==
      before + RequestsFor(authors[..k + 1], asOf)
  {
    assert RequestsFor(authors[..k + 1], asOf) == RequestsFor(authors[..k], asOf) + [Request(Author(authors[k].0, authors[k].1), asOf)];
    Assoc(before, RequestsFor(authors[..k], asOf), [Request(Author(authors[k].0, authors[k].1), asOf)]);
  }

  /** The larger of the head noted first and the numbers fetched. */
  function Newest(head: int, found: seq<ChainEntry>): (n: int)
    ensures n >= head && (n == head || exists i :: 0 <= i < |found| && found[i].seqNo == n)
    ensures forall i :: 0 <= i < |found| ==> found[i].seqNo <= n
  {
    if found == [] then head
    else
      var rest, last := Newest(head, found[..|found| - 1]), found[|found| - 1];
      if last.seqNo > rest then last.seqNo else rest
  }

  lemma NewestIsBelow(full: seq<ChainEntry>, found: seq<ChainEntry>, followed: int, top: nat, head: int, newest: int)
    requires Numbered(full) && Covers(full, found, followed, 0, top) && -1 <= followed < head < top && newest == Newest(head, found)
    ensures newest == top - 1
  {
    assert full[top - 1] in found;
    var i :| 0 <= i < |found| && found[i] == full[top - 1];
    assert found[i].seqNo <= newest;
    if newest != head {
      var j :| 0 <= j < |found| && found[j].seqNo == newest;
      assert found[j] in found;
    }
  }
}
