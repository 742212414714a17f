/**
 The answers Legal gave last, kept to decide by while it cannot be reached. A map that keeps
 its keys in order of insertion is a sequence of pairs here.
 */
module LastKnown {
  import opened Wrappers
  import Text

  const LAST_KNOWN_MAX := 10_000

  type Answers<K, V> = seq<(K, V)>

  function KeysOf<K, V>(h: Answers<K, V>): set<K>
  {
    set i | 0 <= i < |h| :: h[i].0
  }

  /** The pairs whose key is not in `ks`, in order. */
  function Without<K(==), V>(h: Answers<K, V>, ks: set<K>): Answers<K, V>
  {
    if h == [] then []
    else
      var last := h[|h| - 1];
      Without(h[..|h| - 1], ks) + if last.0 in ks then [] else [last]
  }

  /** Each key once, with its latest answer, in the order those answers were given. */
  function Latest<K(==), V>(h: Answers<K, V>): Answers<K, V>
  {
    if h == [] then []
    else
      var last := h[|h| - 1];
      Without(Latest(h[..|h| - 1]), {last.0}) + [last]
  }

  /** At most the last `n`. */
  function LastFew<K, V>(h: Answers<K, V>, n: nat): Answers<K, V>
  {
    if |h| <= n then h else h[|h| - n..]
  }

  function Find<K(==), V>(h: Answers<K, V>, k: K): Option<V>
  {
    if h == [] then None
    else if h[|h| - 1].0 == k then Some(h[|h| - 1].1)
    else Find(h[..|h| - 1], k)
  }

  /**
   What an outage is answered by: the latest answer of the key, unless since then as many other
   keys have been answered as the map holds.
   */
  function Remembered<K(==), V>(h: Answers<K, V>, k: K, others: set<K>): Option<V>
    decreases |h|
  {
    if h == [] || |others| >= LAST_KNOWN_MAX then None
    else if h[|h| - 1].0 == k then Some(h[|h| - 1].1)
    else Remembered(h[..|h| - 1], k, others + {h[|h| - 1].0})
  }

  // ---- keys once each ----

  predicate Unique<K(==), V>(h: Answers<K, V>)
  {
    forall i, j :: 0 <= i < j < |h| ==> h[i].0 != h[j].0
  }

  lemma {:induction false} WithoutKeeps<K, V>(h: Answers<K, V>, ks: set<K>)
    ensures KeysOf(Without(h, ks)) == KeysOf(h) - ks
    ensures KeysOf(h) !! ks ==> Without(h, ks) == h
    decreases |h|
  {
    if h != [] {
      var init, last := h[..|h| - 1], h[|h| - 1];
      WithoutKeeps(init, ks);
      assert h == init + [last];
      KeysOfAppend(init, last);
      KeysOfAppend(Without(init, ks), last);
      assert Without(init, ks) + [] == Without(init, ks);
    } else {
      assert KeysOf(h) == {};
    }
  }

  lemma {:induction false} WithoutIsUnique<K, V>(h: Answers<K, V>, ks: set<K>)
    requires Unique(h)
    ensures Unique(Without(h, ks))
    decreases |h|
  {
    if h != [] {
      var init, last := h[..|h| - 1], h[|h| - 1];
      WithoutIsUnique(init, ks);
      WithoutKeeps(init, ks);
      LastIsNew(h);
      if last.0 !in ks {
        UniqueAppend(Without(init, ks), last);
      }
    }
  }

  lemma LastIsNew<K, V>(h: Answers<K, V>)
    requires Unique(h) && h != []
    ensures h[|h| - 1].0 !in KeysOf(h[..|h| - 1])
  {
  }

  lemma KeysOfAppend<K, V>(h: Answers<K, V>, x: (K, V))
    ensures KeysOf(h + [x]) == KeysOf(h) + {x.0}
  {
    var g := h + [x];
    assert g[|h|] == x;
    forall k | k in KeysOf(h) + {x.0} ensures k in KeysOf(g) {
      if k in KeysOf(h) {
        var i :| 0 <= i < |h| && h[i].0 == k;
        assert g[i].0 == k;
      }
    }
  }

  lemma UniqueAppend<K, V>(h: Answers<K, V>, x: (K, V))
    requires Unique(h) && x.0 !in KeysOf(h)
    ensures Unique(h + [x])
  {
    forall i | 0 <= i < |h| ensures h[i].0 != x.0 {
      assert h[i].0 in KeysOf(h);
    }
  }

  lemma {:induction false} LatestIsUnique<K, V>(h: Answers<K, V>)
    ensures Unique(Latest(h)) && KeysOf(Latest(h)) == KeysOf(h) && |Latest(h)| == |KeysOf(h)|
    decreases |h|
  {
    if h != [] {
      var init, last := h[..|h| - 1], h[|h| - 1];
      assert h == init + [last];
      LatestIsUnique(init);
      WithoutKeeps(Latest(init), {last.0});
      WithoutIsUnique(Latest(init), {last.0});
      UniqueAppend(Without(Latest(init), {last.0}), last);
      KeysOfAppend(Without(Latest(init), {last.0}), last);
      KeysOfAppend(init, last);
    }
    UniqueSize(Latest(h));
  }

  lemma {:induction false} UniqueSize<K, V>(h: Answers<K, V>)
    requires Unique(h)
    ensures |KeysOf(h)| == |h|
    decreases |h|
  {
    if h != [] {
      var init, last := h[..|h| - 1], h[|h| - 1];
      assert h == init + [last];
      UniqueSize(init);
      KeysOfAppend(init, last);
      LastIsNew(h);
    }
  }

  lemma {:induction false} WithoutConcat<K, V>(a: Answers<K, V>, b: Answers<K, V>, ks: set<K>)
    ensures Without(a + b, ks) == Without(a, ks) + Without(b, ks)
    decreases |b|
  {
    if b == [] {
      assert a + b == a;
    } else {
      assert (a + b)[..|a + b| - 1] == a + b[..|b| - 1];
      WithoutConcat(a, b[..|b| - 1], ks);
    }
  }

  lemma {:induction false} WithoutOne<K, V>(h: Answers<K, V>, k: K)
    requires Unique(h)
    ensures |Without(h, {k})| == |h| - (if k in KeysOf(h) then 1 else 0)
    decreases |h|
  {
    if h != [] {
      var init, last := h[..|h| - 1], h[|h| - 1];
      assert h == init + [last];
      WithoutOne(init, k);
      KeysOfAppend(init, last);
      LastIsNew(h);
    }
  }

  // ---- the bounded map ----

  /** One answer recorded: its key moves to the end, and the oldest goes when there are too many. */
  function Recorded<K(==), V>(kept: Answers<K, V>, k: K, answer: V): Answers<K, V>
  {
    var moved := Without(kept, {k}) + [(k, answer)];
    if |moved| > LAST_KNOWN_MAX then moved[1..] else moved
  }

  lemma SuffixIsUnique<K, V>(a: Answers<K, V>, b: Answers<K, V>)
    requires Unique(a + b)
    ensures Unique(b)
  {
    forall i, j | 0 <= i < j < |b| ensures b[i].0 != b[j].0 {
      assert (a + b)[|a| + i] == b[i] && (a + b)[|a| + j] == b[j];
    }
  }

  lemma LastFewOfLong<K, V>(older: Answers<K, V>, recent: Answers<K, V>, n: nat)
    requires |recent| >= n || older == []
    ensures LastFew(older + recent, n) == LastFew(recent, n)
  {
  }

  lemma LastFewOfShort<K, V>(older: Answers<K, V>, recent: Answers<K, V>, n: nat) returns (p: Answers<K, V>)
    requires |recent| <= n
    ensures LastFew(older + recent, n) == p + recent
  {
    var kept := LastFew(older + recent, n);
    p := kept[..|kept| - |recent|];
  }

  lemma LastFewSplits<K, V>(all: Answers<K, V>, n: nat) returns (older: Answers<K, V>)
    ensures all == older + LastFew(all, n)
    ensures |LastFew(all, n)| <= n && (|LastFew(all, n)| == n || older == [])
  {
    older := all[..|all| - |LastFew(all, n)|];
  }

  /** After one more answer there are at most `n + 1` pairs, and `n` or more unless nothing was dropped before. */
  lemma OneMoreFits<K, V>(kept: Answers<K, V>, older: Answers<K, V>, x: (K, V), n: nat)
    requires Unique(kept) && |kept| <= n && (|kept| == n || older == [])
    ensures var moved := Without(kept, {x.0}) + [x];
      |moved| <= n + 1 && LastFew(Without(older, {x.0}) + moved, n) == if |moved| > n then moved[1..] else moved
  {
    WithoutOne(kept, x.0);
    LastFewOfLong(Without(older, {x.0}), Without(kept, {x.0}) + [x], n);
  }

  /** The map holds exactly the most recently answered keys, each with its latest answer. */
  lemma RecordedIsRecent<K, V>(h: Answers<K, V>, k: K, answer: V)
    ensures Recorded(LastFew(Latest(h), LAST_KNOWN_MAX), k, answer) == LastFew(Latest(h + [(k, answer)]), LAST_KNOWN_MAX)
  {
    var older := LastFewSplits(Latest(h), LAST_KNOWN_MAX);
    var kept := LastFew(Latest(h), LAST_KNOWN_MAX);
    LatestIsUnique(h);
    SuffixIsUnique(older, kept);
    OneMoreFits(kept, older, (k, answer), LAST_KNOWN_MAX);
    LatestOfSplit(h, older, kept, (k, answer));
  }

  lemma LatestOfSplit<K, V>(h: Answers<K, V>, older: Answers<K, V>, kept: Answers<K, V>, x: (K, V))
    requires Latest(h) == older + kept
    ensures Latest(h + [x]) == Without(older, {x.0}) + (Without(kept, {x.0}) + [x])
  {
    assert (h + [x])[..|h|] == h;
    WithoutConcat(older, kept, {x.0});
    Text.Assoc(Without(older, {x.0}), Without(kept, {x.0}), [x]);
  }

  // ---- what an outage is answered by ----

  lemma LatestOneMore<K, V>(h: Answers<K, V>, x: (K, V))
    ensures Latest(h + [x]) == Without(Latest(h), {x.0}) + [x]
  {
    assert (h + [x])[..|h|] == h;
  }

  lemma {:induction false} LatestConcat<K, V>(a: Answers<K, V>, b: Answers<K, V>)
    ensures Latest(a + b) == Without(Latest(a), KeysOf(b)) + Latest(b)
    decreases |b|
  {
    if b == [] {
      assert a + b == a && KeysOf(b) == {};
      WithoutKeeps(Latest(a), KeysOf(b));
    } else {
      var init, x := b[..|b| - 1], b[|b| - 1];
      LatestConcat(a, init);
      LatestStep(a, init, x);
      assert b == init + [x];
    }
  }

  lemma LatestStep<K, V>(a: Answers<K, V>, init: Answers<K, V>, x: (K, V))
    requires Latest(a + init) == Without(Latest(a), KeysOf(init)) + Latest(init)
    ensures Latest(a + (init + [x])) == Without(Latest(a), KeysOf(init + [x])) + Latest(init + [x])
  {
    var before, more := Without(Latest(a), KeysOf(init)), Latest(init);
    Text.Assoc(a, init, [x]);
    LatestOneMore(a + init, x);
    LatestOneMore(init, x);
    KeysOfAppend(init, x);
    WithoutConcat(before, more, {x.0});
    WithoutTwice(Latest(a), KeysOf(init), {x.0});
    Text.Assoc(Without(before, {x.0}), Without(more, {x.0}), [x]);
  }

  lemma {:induction false} WithoutTwice<K, V>(h: Answers<K, V>, ks: set<K>, more: set<K>)
    ensures Without(Without(h, ks), more) == Without(h, ks + more)
    decreases |h|
  {
    if h != [] {
      var last := h[|h| - 1];
      WithoutTwice(h[..|h| - 1], ks, more);
      WithoutConcat(Without(h[..|h| - 1], ks), if last.0 in ks then [] else [last], more);
      assert [last][..0] == [];
    }
  }

  lemma {:induction false} FindConcat<K, V>(a: Answers<K, V>, b: Answers<K, V>, k: K)
    ensures Find(a + b, k) == if k in KeysOf(b) then Find(b, k) else Find(a, k)
    decreases |b|
  {
    if b == [] {
      assert a + b == a;
    } else {
      var init, last := b[..|b| - 1], b[|b| - 1];
      assert b == init + [last] && (a + b)[..|a + b| - 1] == a + init;
      KeysOfAppend(init, last);
      FindConcat(a, init, k);
    }
  }

  /** `b` came after `a`, and `k` is not in `b`. */
  lemma {:induction false} RememberedIsFound<K, V>(a: Answers<K, V>, b: Answers<K, V>, k: K)
    requires k !in KeysOf(b)
    ensures Find(LastFew(Latest(a + b), LAST_KNOWN_MAX), k) == Remembered(a, k, KeysOf(b))
    decreases |a|
  {
    LatestIsUnique(b);
    LatestIsUnique(a + b);
    if |KeysOf(b)| >= LAST_KNOWN_MAX {
      OnlyLater(a, b, k);
    } else if a == [] {
      assert a + b == b;
      OnlyLater(a, b, k);
    } else {
      var init, last := a[..|a| - 1], a[|a| - 1];
      assert a + b == init + ([last] + b) && a == init + [last];
      KeysOfFirst(last, b);
      if last.0 != k {
        RememberedIsFound(init, [last] + b, k);
        assert KeysOf([last] + b) == KeysOf(b) + {last.0};
      } else {
        FoundHere(init, last, b);
      }
    }
  }

  lemma KeysOfFirst<K, V>(x: (K, V), b: Answers<K, V>)
    ensures KeysOf([x] + b) == KeysOf(b) + {x.0}
  {
    var g := [x] + b;
    assert g[0] == x;
    forall k | k in KeysOf(b) ensures k in KeysOf(g) {
      var i :| 0 <= i < |b| && b[i].0 == k;
      assert g[i + 1].0 == k;
    }
  }

  lemma {:induction false} FindNeedsKey<K, V>(h: Answers<K, V>, k: K)
    ensures Find(h, k).Some? <==> k in KeysOf(h)
    decreases |h|
  {
    if h != [] {
      FindNeedsKey(h[..|h| - 1], k);
      assert h == h[..|h| - 1] + [h[|h| - 1]];
      KeysOfAppend(h[..|h| - 1], h[|h| - 1]);
    }
  }

  lemma LastFewHasNoMore<K, V>(h: Answers<K, V>, n: nat, k: K)
    requires k !in KeysOf(h)
    ensures Find(LastFew(h, n), k) == None
  {
    var older := LastFewSplits(h, n);
    var kept := LastFew(h, n);
    forall i | 0 <= i < |kept| ensures kept[i].0 != k {
      assert h[|older| + i].0 in KeysOf(h);
    }
    FindNeedsKey(kept, k);
  }

  /** When the later keys fill the map, or there are no earlier ones, the key is not in it. */
  lemma OnlyLater<K, V>(a: Answers<K, V>, b: Answers<K, V>, k: K)
    requires k !in KeysOf(b) && (|KeysOf(b)| >= LAST_KNOWN_MAX || a == [])
    ensures Find(LastFew(Latest(a + b), LAST_KNOWN_MAX), k) == None
  {
    LatestConcat(a, b);
    LatestIsUnique(b);
    if a == [] {
      assert a + b == b;
      assert Without(a, KeysOf(b)) == [];
    }
    LastFewOfLong(Without(Latest(a), KeysOf(b)), Latest(b), LAST_KNOWN_MAX);
    LastFewHasNoMore(Latest(b), LAST_KNOWN_MAX, k);
  }

  lemma One<K, V>(x: (K, V), ks: set<K>)
    requires x.0 !in ks
    ensures Latest([x]) == [x] && Without([x], ks) == [x] && Find([x], x.0) == Some(x.1)
  {
    assert [x][..0] == [];
  }

  lemma FoundHere<K, V>(init: Answers<K, V>, x: (K, V), b: Answers<K, V>)
    requires x.0 !in KeysOf(b) && |KeysOf(b)| < LAST_KNOWN_MAX
    ensures Find(LastFew(Latest(init + ([x] + b)), LAST_KNOWN_MAX), x.0) == Some(x.1)
  {
    One(x, KeysOf(b));
    LatestConcat(init, [x] + b);
    LatestConcat([x], b);
    LatestIsUnique(b);
    var recent := [x] + Latest(b);
    var p := LastFewOfShort(Without(Latest(init), KeysOf([x] + b)), recent, LAST_KNOWN_MAX);
    KeysOfFirst(x, Latest(b));
    FindConcat(p, recent, x.0);
    FindConcat([x], Latest(b), x.0);
  }

  class Memory<K(==, !new), V(!new)> {
    var lastKnown: Answers<K, V>
    ghost var answered: Answers<K, V>

    constructor ()
      ensures Valid() && answered == []
    {
      lastKnown, answered := [], [];
    }

    ghost predicate Valid()
      reads this
    {
      lastKnown == LastFew(Latest(answered), LAST_KNOWN_MAX)
    }

    /** `answer` is what Legal says now, `None` while it cannot be reached; the result `None` is the caller's error. */
    method Status(key: K, answer: Option<V>) returns (r: Option<V>)
      requires Valid()
      modifies this
      ensures Valid()
      ensures answered == old(answered) + if answer.Some? then [(key, answer.value)] else []
      ensures r == if answer.Some? then answer else Remembered(old(answered), key, {})
      ensures answer.None? ==> lastKnown == old(lastKnown)
    {
      if answer.Some? {
        RecordedIsRecent(answered, key, answer.value);
        lastKnown := Without(lastKnown, {key});
        lastKnown := lastKnown + [(key, answer.value)];
        if |lastKnown| > LAST_KNOWN_MAX {
          lastKnown := lastKnown[1..];
        }
        answered := answered + [(key, answer.value)];
        return answer;
      }
      RememberedIsFound(answered, [], key);
      assert answered + [] == answered;
      r := Find(lastKnown, key);
    }
  }

  /** The map never holds more than its bound, and a key only once. */
  lemma MapIsBounded<K, V>(h: Answers<K, V>)
    ensures var kept := LastFew(Latest(h), LAST_KNOWN_MAX); |kept| <= LAST_KNOWN_MAX && Unique(kept)
  {
    LatestIsUnique(h);
    var all := Latest(h);
    var kept := LastFew(all, LAST_KNOWN_MAX);
    assert all == all[..|all| - |kept|] + kept;
    SuffixIsUnique(all[..|all| - |kept|], kept);
  }
}
