/**
 What the key-sorted text of a value means. Two values get the same text exactly when they
 are the same up to the order of object keys; the text holds no newline; `JSON.parse` reads
 it; and storing a value with `JSON.stringify` and reading it again leaves it unchanged.
 */
module Canonical {
  import opened Wrappers
  import opened Text
  import opened Json
  import opened JsonParse

  // ---- the normal form the text is printed from ----

  function Canon(v: Json): Json
    decreases v, 0, 0
  {
    match v
    case Undefined => Null
    case Arr(items) => Arr(CanonItems(items))
    case Obj(fs) => Obj(CanonFields(fs, SortedKeys(fs)))
    case _ => v
  }

  function CanonItems(items: seq<Json>): (r: seq<Json>)
    ensures |r| == |items|
    decreases items, 1, 0
  {
    if items == [] then [] else [Canon(items[0])] + CanonItems(items[1..])
  }

  function CanonField(f: Field): Field
    decreases f, 1, 0
  {
    (f.0, Canon(f.1))
  }

  function CanonFields(fs: seq<Field>, keys: seq<Text>): seq<Field>
    decreases fs, 1, |keys|
  {
    if keys == [] then []
    else if !HasKey(fs, keys[0]) || fs[IndexOf(fs, keys[0])].1 == Undefined then CanonFields(fs, keys[1..])
    else [CanonField(fs[IndexOf(fs, keys[0])])] + CanonFields(fs, keys[1..])
  }

  lemma {:induction false} CanonicalJsonPrintsCanon(v: Json)
    ensures CanonicalJson(v) == Print(Canon(v))
    decreases v, 0, 0
  {
    match v
    case Arr(items) => ItemsPrintCanon(items);
    case Obj(fs) => FieldsPrintCanon(fs, SortedKeys(fs));
    case _ =>
  }

  lemma {:induction false} ItemsPrintCanon(items: seq<Json>)
    ensures CanonicalItems(items) == PrintItems(CanonItems(items))
    decreases items, 1, 0
  {
    if items != [] {
      CanonicalJsonPrintsCanon(items[0]);
      ItemsPrintCanon(items[1..]);
      assert CanonItems(items)[1..] == CanonItems(items[1..]);
    }
  }

  lemma {:induction false} FieldPrintsCanon(f: Field)
    ensures CanonicalField(f) == PrintField(CanonField(f))
    decreases f, 1, 0
  {
    CanonicalJsonPrintsCanon(f.1);
  }

  lemma {:induction false} FieldsPrintCanon(fs: seq<Field>, keys: seq<Text>)
    ensures |CanonicalParts(fs, keys)| == |CanonFields(fs, keys)|
    ensures JoinParts(CanonicalParts(fs, keys)) == PrintFields(CanonFields(fs, keys))
    decreases fs, 1, |keys|
  {
    if keys != [] {
      FieldsPrintCanon(fs, keys[1..]);
      if HasKey(fs, keys[0]) && fs[IndexOf(fs, keys[0])].1 != Undefined {
        FieldPrintsCanon(fs[IndexOf(fs, keys[0])]);
        assert CanonicalParts(fs, keys)[1..] == CanonicalParts(fs, keys[1..]);
        assert CanonFields(fs, keys)[1..] == CanonFields(fs, keys[1..]);
      }
    }
  }

  // ---- the sort ----

  predicate Ascending(keys: seq<Text>)
  {
    forall i, j :: 0 <= i < j < |keys| ==> Below(keys[i], keys[j])
  }

  lemma {:induction false} InsertKeepsAscending(k: Text, keys: seq<Text>)
    requires Ascending(keys) && k !in keys
    ensures Ascending(Insert(k, keys))
    ensures forall x :: x in Insert(k, keys) <==> x == k || x in keys
  {
    if keys != [] {
      BelowIsTotal(keys[0], k);
      if Below(keys[0], k) {
        InsertKeepsAscending(k, keys[1..]);
        var tail := Insert(k, keys[1..]);
        forall x | x in tail ensures Below(keys[0], x) {
          if x != k {
            var i :| 0 <= i < |keys[1..]| && keys[1..][i] == x;
            assert keys[i + 1] == x;
          }
        }
        assert keys == [keys[0]] + keys[1..];
      } else {
        forall i | 0 <= i < |keys| ensures Below(k, keys[i]) {
          if i > 0 { BelowIsTransitive(k, keys[0], keys[i]); }
        }
      }
    }
  }

  /** The sort keeps every key once and puts them in ascending order. */
  lemma {:induction false} SortedKeysIsSorted(fs: seq<Field>)
    requires DistinctKeys(fs)
    ensures Ascending(SortedKeys(fs))
    ensures forall k :: k in SortedKeys(fs) <==> HasKey(fs, k)
  {
    if fs != [] {
      SortedKeysIsSorted(fs[1..]);
      assert fs == [fs[0]] + fs[1..];
      assert forall k :: HasKey(fs, k) <==> k == fs[0].0 || HasKey(fs[1..], k) by {
        forall k ensures HasKey(fs, k) <==> k == fs[0].0 || HasKey(fs[1..], k) {
          if HasKey(fs, k) && k != fs[0].0 { assert fs[1..][IndexOf(fs, k) - 1].0 == k; }
          if HasKey(fs[1..], k) { assert fs[IndexOf(fs[1..], k) + 1].0 == k; }
        }
      }
      InsertKeepsAscending(fs[0].0, SortedKeys(fs[1..]));
    }
  }

  // ---- objects in normal form ----

  predicate AscendingFields(fs: seq<Field>)
  {
    forall i, j :: 0 <= i < j < |fs| ==> Below(fs[i].0, fs[j].0)
  }

  lemma AscendingFieldsAreDistinct(fs: seq<Field>)
    requires AscendingFields(fs)
    ensures DistinctKeys(fs)
  {
    forall i, j | 0 <= i < j < |fs| ensures fs[i].0 != fs[j].0 {
      BelowIsIrreflexive(fs[i].0);
    }
  }

  /** `f` is the normal form of the field that `fs` holds at one of `keys`. */
  predicate IsCanonField(fs: seq<Field>, keys: seq<Text>, f: Field)
  {
    f.0 in keys && HasKey(fs, f.0) &&
    fs[IndexOf(fs, f.0)].1 != Undefined && f.1 == Canon(fs[IndexOf(fs, f.0)].1)
  }

  lemma {:induction false} CanonFieldsAreSound(fs: seq<Field>, keys: seq<Text>)
    ensures forall i :: 0 <= i < |CanonFields(fs, keys)| ==> IsCanonField(fs, keys, CanonFields(fs, keys)[i])
    decreases |keys|
  {
    if keys != [] {
      CanonFieldsAreSound(fs, keys[1..]);
      var r, tail := CanonFields(fs, keys), CanonFields(fs, keys[1..]);
      forall i | 0 <= i < |r| ensures IsCanonField(fs, keys, r[i]) {
        var defined := HasKey(fs, keys[0]) && fs[IndexOf(fs, keys[0])].1 != Undefined;
        if i > 0 || !defined {
          assert r[i] == if defined then tail[i - 1] else tail[i];
          assert IsCanonField(fs, keys[1..], r[i]);
        } else {
          assert r[i] == CanonField(fs[IndexOf(fs, keys[0])]);
        }
      }
    }
  }

  lemma CanonFieldsFirst(fs: seq<Field>, keys: seq<Text>)
    requires keys != [] && HasKey(fs, keys[0]) && fs[IndexOf(fs, keys[0])].1 != Undefined
    ensures CanonFields(fs, keys) == [CanonField(fs[IndexOf(fs, keys[0])])] + CanonFields(fs, keys[1..])
    ensures CanonField(fs[IndexOf(fs, keys[0])]).0 == keys[0]
  {
  }

  lemma {:induction false} CanonFieldsAreAscending(fs: seq<Field>, keys: seq<Text>)
    requires Ascending(keys)
    ensures AscendingFields(CanonFields(fs, keys))
    decreases |keys|
  {
    if keys != [] {
      CanonFieldsAreAscending(fs, keys[1..]);
      CanonFieldsAreSound(fs, keys[1..]);
      var r, tail := CanonFields(fs, keys), CanonFields(fs, keys[1..]);
      if HasKey(fs, keys[0]) && fs[IndexOf(fs, keys[0])].1 != Undefined {
        CanonFieldsFirst(fs, keys);
        forall i | 0 <= i < |tail| ensures Below(keys[0], tail[i].0) {
          assert IsCanonField(fs, keys[1..], tail[i]);
          var j :| 0 <= j < |keys[1..]| && keys[1..][j] == tail[i].0;
          assert keys[j + 1] == tail[i].0;
        }
      }
    }
  }

  lemma {:induction false} CanonFieldsAreComplete(fs: seq<Field>, keys: seq<Text>, k: Text)
    requires k in keys && HasKey(fs, k) && fs[IndexOf(fs, k)].1 != Undefined
    ensures HasKey(CanonFields(fs, keys), k)
    decreases |keys|
  {
    var r, tail := CanonFields(fs, keys), CanonFields(fs, keys[1..]);
    if k == keys[0] {
      assert r == [CanonField(fs[IndexOf(fs, k)])] + tail;
      assert r[0].0 == k;
    } else {
      assert k in keys[1..];
      CanonFieldsAreComplete(fs, keys[1..], k);
      var i := IndexOf(tail, k);
      assert r == tail || r[i + 1] == tail[i];
    }
  }

  function CanonObj(fs: seq<Field>): seq<Field> { CanonFields(fs, SortedKeys(fs)) }

  /** An object's normal form has, at each defined key, the normal form of the value there. */
  lemma LookupInCanon(fs: seq<Field>, k: Text)
    requires DistinctKeys(fs)
    ensures AscendingFields(CanonObj(fs)) && DistinctKeys(CanonObj(fs))
    ensures Lookup(CanonObj(fs), k) == if Lookup(fs, k) == Undefined then Undefined else Canon(Lookup(fs, k))
  {
    SortedKeysIsSorted(fs);
    CanonFieldsAreAscending(fs, SortedKeys(fs));
    CanonFieldsAreSound(fs, SortedKeys(fs));
    AscendingFieldsAreDistinct(CanonObj(fs));
    if HasKey(CanonObj(fs), k) {
      assert IsCanonField(fs, SortedKeys(fs), CanonObj(fs)[IndexOf(CanonObj(fs), k)]);
    } else if Lookup(fs, k) != Undefined {
      CanonFieldsAreComplete(fs, SortedKeys(fs), k);
      assert false;
    }
  }

  /** Fields in ascending order are determined by what each key holds. */
  lemma {:induction false} AscendingFieldsAreUnique(a: seq<Field>, b: seq<Field>)
    requires AscendingFields(a) && AscendingFields(b)
    requires forall i :: 0 <= i < |a| ==> a[i].1 != Undefined
    requires forall i :: 0 <= i < |b| ==> b[i].1 != Undefined
    requires forall k :: Lookup(a, k) == Lookup(b, k)
    ensures a == b
    decreases |a| + |b|
  {
    AscendingFieldsAreDistinct(a);
    AscendingFieldsAreDistinct(b);
    if a != [] { HeadIsFirst(a, b); }
    if b != [] { HeadIsFirst(b, a); }
    if a != [] {
      BelowIsTotal(a[0].0, b[0].0);
      LookupAt(a, 0);
      LookupAt(b, 0);
      assert a[0].0 == b[0].0;
      forall x ensures Lookup(a[1..], x) == Lookup(b[1..], x) {
        LookupInTail(a, x);
        LookupInTail(b, x);
      }
      AscendingFieldsAreUnique(a[1..], b[1..]);
      assert a == [a[0]] + a[1..] && b == [b[0]] + b[1..];
    }
  }

  lemma HeadIsFirst(a: seq<Field>, b: seq<Field>)
    requires a != [] && AscendingFields(b) && a[0].1 != Undefined
    requires forall k :: Lookup(a, k) == Lookup(b, k)
    ensures b != [] && !Below(a[0].0, b[0].0)
  {
    var k := a[0].0;
    assert IndexOf(a, k) == 0;
    assert Lookup(b, k) != Undefined;
    var i := IndexOf(b, k);
    if Below(k, b[0].0) {
      BelowIsIrreflexive(k);
      if i > 0 {
        BelowIsTransitive(k, b[0].0, b[i].0);
      }
      assert false;
    }
  }

  lemma LookupInTail(a: seq<Field>, x: Text)
    requires a != [] && DistinctKeys(a)
    ensures Lookup(a[1..], x) == if x == a[0].0 then Undefined else Lookup(a, x)
  {
    if HasKey(a[1..], x) {
      var i := IndexOf(a[1..], x);
      assert a[i + 1] == a[1..][i];
      assert IndexOf(a, x) == i + 1;
    }
  }

  // ---- equal up to key order ----

  /** The same value up to the order of keys, a missing key and an undefined one alike. */
  ghost predicate Equivalent(v: Json, w: Json)
    decreases v
  {
    match v
    case Undefined => w.Undefined? || w.Null?
    case Null => w.Undefined? || w.Null?
    case Arr(items) =>
      w.Arr? && |items| == |w.items| && forall i :: 0 <= i < |items| ==> Equivalent(items[i], w.items[i])
    case Obj(fs) =>
      w.Obj? &&
      (forall i :: 0 <= i < |fs| && fs[i].1 != Undefined ==>
        Lookup(w.fields, fs[i].0) != Undefined && Equivalent(fs[i].1, Lookup(w.fields, fs[i].0))) &&
      (forall j :: 0 <= j < |w.fields| && w.fields[j].1 != Undefined ==>
        Lookup(fs, w.fields[j].0) != Undefined)
    case _ => v == w
  }

  lemma {:induction false} CanonItemsAre(items: seq<Json>)
    ensures forall i :: 0 <= i < |items| ==> CanonItems(items)[i] == Canon(items[i])
  {
    if items != [] {
      CanonItemsAre(items[1..]);
      forall i | 0 <= i < |items| ensures CanonItems(items)[i] == Canon(items[i]) {
        if i > 0 { assert items[i] == items[1..][i - 1]; }
      }
    }
  }

  lemma LookupAt(fs: seq<Field>, i: nat)
    requires DistinctKeys(fs) && i < |fs|
    ensures Lookup(fs, fs[i].0) == fs[i].1
  {
    assert IndexOf(fs, fs[i].0) == i;
  }

  lemma {:induction false} EquivalentMeansSameCanon(v: Json, w: Json)
    requires WellFormed(v) && WellFormed(w) && Equivalent(v, w)
    ensures Canon(v) == Canon(w)
    decreases v
  {
    match v
    case Arr(items) =>
      CanonItemsAre(items);
      CanonItemsAre(w.items);
      forall i | 0 <= i < |items| ensures CanonItems(items)[i] == CanonItems(w.items)[i] {
        EquivalentMeansSameCanon(items[i], w.items[i]);
      }
    case Obj(fs) =>
      forall k ensures Lookup(CanonObj(fs), k) == Lookup(CanonObj(w.fields), k) {
        LookupInCanon(fs, k);
        LookupInCanon(w.fields, k);
        if Lookup(fs, k) != Undefined {
          var i := IndexOf(fs, k);
          var j := IndexOf(w.fields, k);
          EquivalentMeansSameCanon(fs[i].1, w.fields[j].1);
        } else if Lookup(w.fields, k) != Undefined {
          assert false;
        }
      }
      CanonFieldsDefined(fs);
      CanonFieldsDefined(w.fields);
      AscendingFieldsAreUnique(CanonObj(fs), CanonObj(w.fields));
    case _ =>
  }

  lemma CanonFieldsDefined(fs: seq<Field>)
    requires DistinctKeys(fs)
    ensures AscendingFields(CanonObj(fs))
    ensures forall i :: 0 <= i < |CanonObj(fs)| ==> CanonObj(fs)[i].1 != Undefined
  {
    SortedKeysIsSorted(fs);
    CanonFieldsAreAscending(fs, SortedKeys(fs));
    CanonFieldsAreSound(fs, SortedKeys(fs));
    forall i | 0 <= i < |CanonObj(fs)| ensures CanonObj(fs)[i].1 != Undefined {
      assert IsCanonField(fs, SortedKeys(fs), CanonObj(fs)[i]);
    }
  }

  lemma {:induction false} SameCanonMeansEquivalent(v: Json, w: Json)
    requires WellFormed(v) && WellFormed(w) && Canon(v) == Canon(w)
    ensures Equivalent(v, w)
    decreases v
  {
    match v
    case Arr(items) =>
      CanonItemsAre(items);
      CanonItemsAre(w.items);
      forall i | 0 <= i < |items| ensures Equivalent(items[i], w.items[i]) {
        assert CanonItems(items)[i] == CanonItems(w.items)[i];
        SameCanonMeansEquivalent(items[i], w.items[i]);
      }
    case Obj(fs) =>
      var gs := w.fields;
      assert CanonObj(fs) == CanonObj(gs);
      forall i | 0 <= i < |fs| && fs[i].1 != Undefined
        ensures Lookup(gs, fs[i].0) != Undefined && Equivalent(fs[i].1, Lookup(gs, fs[i].0))
      {
        var k := fs[i].0;
        LookupAt(fs, i);
        LookupInCanon(fs, k);
        LookupInCanon(gs, k);
        assert Canon(fs[i].1) == Canon(gs[IndexOf(gs, k)].1);
        SameCanonMeansEquivalent(fs[i].1, gs[IndexOf(gs, k)].1);
      }
      forall j | 0 <= j < |gs| && gs[j].1 != Undefined ensures Lookup(fs, gs[j].0) != Undefined {
        LookupAt(gs, j);
        LookupInCanon(fs, gs[j].0);
        LookupInCanon(gs, gs[j].0);
      }
    case _ =>
  }

  // ---- the theorems ----

  lemma {:induction false} CanonIsPrintable(v: Json)
    requires WellFormed(v)
    ensures Defined(Canon(v)) && WellFormed(Canon(v))
    decreases v
  {
    match v
    case Arr(items) =>
      CanonItemsAre(items);
      forall i | 0 <= i < |items| ensures Defined(CanonItems(items)[i]) && WellFormed(CanonItems(items)[i]) {
        CanonIsPrintable(items[i]);
      }
    case Obj(fs) =>
      CanonFieldsDefined(fs);
      CanonFieldsAreSound(fs, SortedKeys(fs));
      var r := CanonObj(fs);
      AscendingFieldsAreDistinct(r);
      forall i | 0 <= i < |r| ensures Defined(r[i].1) && WellFormed(r[i].1) {
        assert IsCanonField(fs, SortedKeys(fs), r[i]);
        CanonIsPrintable(fs[IndexOf(fs, r[i].0)].1);
      }
    case _ =>
  }

  /** The key-sorted text can be read back: `JSON.parse` gives the normal form. */
  lemma CanonicalJsonParses(v: Json)
    requires WellFormed(v)
    ensures Parse(CanonicalJson(v)) == Some(Canon(v))
  {
    CanonicalJsonPrintsCanon(v);
    CanonIsPrintable(v);
    ParseReadsBack(Canon(v));
  }

  /** Same text, same value up to key order, and the other way round. */
  lemma CanonicalJsonIsExact(v: Json, w: Json)
    requires WellFormed(v) && WellFormed(w)
    ensures CanonicalJson(v) == CanonicalJson(w) <==> Equivalent(v, w)
  {
    CanonicalJsonPrintsCanon(v);
    CanonicalJsonPrintsCanon(w);
    CanonicalJsonParses(v);
    CanonicalJsonParses(w);
    if CanonicalJson(v) == CanonicalJson(w) {
      SameCanonMeansEquivalent(v, w);
    }
    if Equivalent(v, w) {
      EquivalentMeansSameCanon(v, w);
    }
  }

  // ---- stored and read again ----

  lemma {:induction false} CleanItemsAre(items: seq<Json>)
    ensures forall i :: 0 <= i < |items| ==> CleanItems(items)[i] == Clean(items[i])
  {
    if items != [] {
      CleanItemsAre(items[1..]);
      forall i | 0 <= i < |items| ensures CleanItems(items)[i] == Clean(items[i]) {
        if i > 0 { assert items[i] == items[1..][i - 1]; }
      }
    }
  }

  /** `f` is what `JSON.stringify` keeps of the field at its key. */
  predicate IsCleanField(fs: seq<Field>, f: Field)
  {
    HasKey(fs, f.0) && fs[IndexOf(fs, f.0)].1 != Undefined && f.1 == Clean(fs[IndexOf(fs, f.0)].1)
  }

  lemma {:induction false} CleanFieldsAre(fs: seq<Field>)
    requires DistinctKeys(fs)
    ensures DistinctKeys(CleanFields(fs))
    ensures forall i :: 0 <= i < |CleanFields(fs)| ==> IsCleanField(fs, CleanFields(fs)[i])
    ensures forall i :: 0 <= i < |fs| && fs[i].1 != Undefined ==> HasKey(CleanFields(fs), fs[i].0)
  {
    if fs != [] {
      var r, tail := CleanFields(fs), CleanFields(fs[1..]);
      CleanFieldsAre(fs[1..]);
      forall i | 0 <= i < |tail| ensures tail[i].0 != fs[0].0 && IsCleanField(fs, tail[i]) {
        var j := IndexOf(fs[1..], tail[i].0);
        assert fs[j + 1] == fs[1..][j] && IsCleanField(fs[1..], tail[i]);
        LookupAt(fs, j + 1);
      }
      LookupAt(fs, 0);
      forall i | 0 <= i < |fs| && fs[i].1 != Undefined ensures HasKey(r, fs[i].0) {
        if i > 0 {
          assert fs[i] == fs[1..][i - 1];
          var j := IndexOf(tail, fs[i].0);
          assert r == tail || r[j + 1] == tail[j];
        } else {
          assert r == [CleanField(fs[0])] + tail;
          assert r[0].0 == fs[0].0;
        }
      }
      assert r == tail || r == [CleanField(fs[0])] + tail;
    }
  }

  lemma {:induction false} CleanIsPrintable(v: Json)
    requires WellFormed(v)
    ensures Defined(Clean(v)) && WellFormed(Clean(v))
    decreases v
  {
    match v
    case Arr(items) =>
      CleanItemsAre(items);
      forall i | 0 <= i < |items| ensures Defined(CleanItems(items)[i]) && WellFormed(CleanItems(items)[i]) {
        CleanIsPrintable(items[i]);
      }
    case Obj(fs) =>
      CleanFieldsAre(fs);
      forall i | 0 <= i < |CleanFields(fs)|
        ensures Defined(CleanFields(fs)[i].1) && WellFormed(CleanFields(fs)[i].1)
      {
        assert IsCleanField(fs, CleanFields(fs)[i]);
        CleanIsPrintable(fs[IndexOf(fs, CleanFields(fs)[i].0)].1);
      }
    case _ =>
  }

  lemma {:induction false} CleanIsEquivalent(v: Json)
    requires WellFormed(v)
    ensures Equivalent(v, Clean(v))
    decreases v
  {
    match v
    case Arr(items) =>
      CleanItemsAre(items);
      forall i | 0 <= i < |items| ensures Equivalent(items[i], CleanItems(items)[i]) {
        CleanIsEquivalent(items[i]);
      }
    case Obj(fs) =>
      CleanFieldsAre(fs);
      var r := CleanFields(fs);
      forall i | 0 <= i < |fs| && fs[i].1 != Undefined
        ensures Lookup(r, fs[i].0) != Undefined && Equivalent(fs[i].1, Lookup(r, fs[i].0))
      {
        assert IsCleanField(fs, r[IndexOf(r, fs[i].0)]);
        LookupAt(fs, i);
        CleanIsEquivalent(fs[i].1);
      }
      forall j | 0 <= j < |r| && r[j].1 != Undefined ensures Lookup(fs, r[j].0) != Undefined {
        assert IsCleanField(fs, r[j]);
      }
    case _ =>
  }

  /** What `JSON.stringify` stored, `JSON.parse` reads as an equivalent value with the same key-sorted text. */
  lemma StoredValueKeepsItsText(v: Json)
    requires WellFormed(v)
    ensures Parse(Stringify(v)) == Some(Clean(v))
    ensures WellFormed(Clean(v)) && Equivalent(v, Clean(v))
    ensures CanonicalJson(Clean(v)) == CanonicalJson(v)
  {
    CleanIsPrintable(v);
    ParseReadsBack(Clean(v));
    CleanIsEquivalent(v);
    CanonicalJsonIsExact(v, Clean(v));
  }

  // ---- one line ----

  lemma NoNewlineIn(t: Text)
    requires forall i :: 0 <= i < |t| ==> t[i] >= 32
    ensures NoNewline(t)
  {
  }

  lemma {:induction false} PrintIsOneLine(v: Json)
    ensures NoNewline(Print(v))
    decreases v, 0
  {
    match v
    case Num(n) => DecimalHasNoNewline(n);
    case Str(t) => NoNewlineIn(Escape(t));
    case Arr(items) => PrintItemsIsOneLine(items);
    case Obj(fs) => PrintFieldsIsOneLine(fs);
    case _ =>
  }

  lemma {:induction false} PrintItemsIsOneLine(items: seq<Json>)
    ensures NoNewline(PrintItems(items))
    decreases items, 1
  {
    if items != [] {
      PrintIsOneLine(items[0]);
      PrintItemsIsOneLine(items[1..]);
    }
  }

  lemma {:induction false} PrintFieldsIsOneLine(fs: seq<Field>)
    ensures NoNewline(PrintFields(fs))
    decreases fs, 1
  {
    if fs != [] {
      PrintFieldIsOneLine(fs[0]);
      PrintFieldsIsOneLine(fs[1..]);
    }
  }

  lemma {:induction false} PrintFieldIsOneLine(f: Field)
    ensures NoNewline(PrintField(f))
    decreases f, 1
  {
    NoNewlineIn(Escape(f.0));
    PrintIsOneLine(f.1);
  }

  lemma CanonicalJsonIsOneLine(v: Json)
    ensures NoNewline(CanonicalJson(v))
  {
    CanonicalJsonPrintsCanon(v);
    PrintIsOneLine(Canon(v));
  }
}
