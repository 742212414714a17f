/** Splitting rows into the batches Legal takes in one request, by count and by bytes. */
module Batching {
  import opened Text

  const MAX_BATCH_BYTES := 8_000_000

  function Flatten<T>(batches: seq<seq<T>>): seq<T>
  {
    if batches == [] then [] else Flatten(batches[..|batches| - 1]) + batches[|batches| - 1]
  }

  function Bytes<T>(size: T -> nat, rows: seq<T>): nat
  {
    if rows == [] then 0 else Bytes(size, rows[..|rows| - 1]) + size(rows[|rows| - 1])
  }

  lemma {:induction false} BytesOfPrefix<T>(size: T -> nat, rows: seq<T>, n: nat)
    requires n <= |rows|
    ensures Bytes(size, rows[..n]) <= Bytes(size, rows)
    decreases |rows|
  {
    if n == |rows| {
      assert rows[..n] == rows;
    } else {
      assert rows[..n] == rows[..|rows| - 1][..n];
      BytesOfPrefix(size, rows[..|rows| - 1], n);
    }
  }

  /** A batch Legal takes: some rows, within the count, and within the bytes unless it is a single row. */
  predicate Fits<T>(size: T -> nat, max: nat, batch: seq<T>)
  {
    batch != [] && (|batch| <= max || |batch| == 1) && (Bytes(size, batch) <= MAX_BATCH_BYTES || |batch| == 1)
  }

  /** The next row would not have fitted. */
  predicate Full<T>(size: T -> nat, max: nat, batch: seq<T>, next: T)
  {
    |batch| >= max || Bytes(size, batch) + size(next) > MAX_BATCH_BYTES
  }

  predicate AllFit<T>(size: T -> nat, max: nat, batches: seq<seq<T>>)
  {
    forall i :: 0 <= i < |batches| ==> Fits(size, max, batches[i])
  }

  predicate NoneEarly<T>(size: T -> nat, max: nat, batches: seq<seq<T>>)
    requires AllFit(size, max, batches)
  {
    forall i, j :: 0 <= i < |batches| && j == i + 1 < |batches| ==> Full(size, max, batches[i], batches[j][0])
  }

  /** The batches hold the rows in order, each fits, and none ends before it has to. */
  predicate IsBatching<T(==)>(size: T -> nat, max: nat, rows: seq<T>, batches: seq<seq<T>>)
  {
    Flatten(batches) == rows && AllFit(size, max, batches) && NoneEarly(size, max, batches)
  }

  /** The first `i` rows are the finished batches and the one being filled. */
  ghost predicate Read<T>(rows: seq<T>, i: nat, batches: seq<seq<T>>, batch: seq<T>)
    requires i <= |rows|
  {
    rows[..i] == if batch == [] then Flatten(batches) else Flatten(batches) + batch
  }

  /** The finished batches, and the one being filled if it has begun. */
  ghost predicate Filling<T>(size: T -> nat, max: nat, batches: seq<seq<T>>, batch: seq<T>)
  {
    AllFit(size, max, batches) && NoneEarly(size, max, batches) && (batch == [] ==> batches == []) &&
    (batch != [] ==> Fits(size, max, batch)) &&
    (batch != [] && batches != [] ==> Full(size, max, batches[|batches| - 1], batch[0]))
  }

  /** The batch being filled has room for `row`, or is a new one that had to begin. */
  ghost predicate Takes<T>(size: T -> nat, max: nat, batches: seq<seq<T>>, batch: seq<T>, row: T)
  {
    AllFit(size, max, batches) && NoneEarly(size, max, batches) &&
    (batch != [] ==> Fits(size, max, batch) && !Full(size, max, batch, row)) &&
    (batches != [] ==> Full(size, max, batches[|batches| - 1], if batch == [] then row else batch[0]))
  }

  method BySize<T(==)>(size: T -> nat, rows: seq<T>, max: nat) returns (batches: seq<seq<T>>)
    ensures IsBatching(size, max, rows, batches)
  {
    batches := [];
    var batch: seq<T> := [];
    var bytes := 0;
    for i := 0 to |rows|
      invariant Read(rows, i, batches, batch) && Filling(size, max, batches, batch) && bytes == Bytes(size, batch)
    {
      var row := rows[i];
      var rowSize := size(row);
      if batch != [] && (bytes + rowSize > MAX_BATCH_BYTES || |batch| >= max) {
        YieldKeepsRead(rows, i, batches, batch);
        YieldMakesRoom(size, max, batches, batch, row);
        batches, batch, bytes := batches + [batch], [], 0;
      }
      AddKeepsRead(rows, i, batches, batch);
      AddFills(size, max, batches, batch, row);
      batch := batch + [row];
      bytes := bytes + rowSize;
    }
    Finished(size, max, rows, batches, batch);
    if batch != [] {
      batches := batches + [batch];
    }
  }

  lemma FlattenOneMore<T>(batches: seq<seq<T>>, batch: seq<T>)
    ensures Flatten(batches + [batch]) == Flatten(batches) + batch
  {
    assert (batches + [batch])[..|batches|] == batches;
  }

  lemma YieldKeepsRead<T>(rows: seq<T>, i: nat, batches: seq<seq<T>>, batch: seq<T>)
    requires i <= |rows| && Read(rows, i, batches, batch) && batch != []
    ensures Read(rows, i, batches + [batch], [])
  {
    FlattenOneMore(batches, batch);
  }

  lemma YieldMakesRoom<T>(size: T -> nat, max: nat, batches: seq<seq<T>>, batch: seq<T>, row: T)
    requires Filling(size, max, batches, batch) && batch != [] && Full(size, max, batch, row)
    ensures Takes(size, max, batches + [batch], [], row)
  {
  }

  lemma AddKeepsRead<T>(rows: seq<T>, i: nat, batches: seq<seq<T>>, batch: seq<T>)
    requires i < |rows| && Read(rows, i, batches, batch)
    ensures Read(rows, i + 1, batches, batch + [rows[i]])
  {
    if batch != [] {
      Assoc(Flatten(batches), batch, [rows[i]]);
    } else {
      assert batch + [rows[i]] == [rows[i]];
    }
  }

  lemma AddFills<T>(size: T -> nat, max: nat, batches: seq<seq<T>>, batch: seq<T>, row: T)
    requires Takes(size, max, batches, batch, row)
    ensures Filling(size, max, batches, batch + [row]) && Bytes(size, batch + [row]) == Bytes(size, batch) + size(row)
  {
    assert (batch + [row])[..|batch|] == batch;
  }

  lemma Finished<T>(size: T -> nat, max: nat, rows: seq<T>, batches: seq<seq<T>>, batch: seq<T>)
    requires Read(rows, |rows|, batches, batch) && Filling(size, max, batches, batch)
    ensures IsBatching(size, max, rows, if batch == [] then batches else batches + [batch])
  {
    assert rows[..|rows|] == rows;
    FlattenOneMore(batches, batch);
  }

  // ---- the batching is the only one ----

  lemma {:induction false} FlattenFirst<T>(batches: seq<seq<T>>)
    requires batches != []
    ensures Flatten(batches) == batches[0] + Flatten(batches[1..])
    decreases |batches|
  {
    var init, last := batches[..|batches| - 1], batches[|batches| - 1];
    if init == [] {
      assert batches[1..] == [] && Flatten(init) == [];
    } else {
      FlattenFirst(init);
      assert batches[1..][..|batches[1..]| - 1] == init[1..];
      Assoc(batches[0], Flatten(init[1..]), last);
    }
  }

  /** A batch that reaches past a full one does not fit. */
  lemma PastFullDoesNotFit<T>(size: T -> nat, max: nat, first: seq<T>, next: T, longer: seq<T>)
    requires first != [] && Full(size, max, first, next) && first + [next] <= longer
    ensures !Fits(size, max, longer)
  {
    var n := |first|;
    assert longer[..n + 1] == first + [next] && (first + [next])[..n] == first;
    BytesOfPrefix(size, longer, n + 1);
  }

  lemma RowsAfterFirst<T>(size: T -> nat, max: nat, batches: seq<seq<T>>)
    requires AllFit(size, max, batches) && batches != []
    ensures |batches| == 1 ==> Flatten(batches) == batches[0]
    ensures |batches| > 1 ==> batches[0] + [batches[1][0]] <= Flatten(batches)
  {
    FlattenFirst(batches);
    var tail := batches[1..];
    if tail == [] {
      assert batches[0] + Flatten(tail) == batches[0];
    } else {
      FlattenFirst(tail);
      assert tail[0] == batches[1];
      assert Fits(size, max, batches[1]);
      PrefixGrows(batches[0], batches[1], Flatten(tail[1..]));
    }
  }

  lemma PrefixGrows<T>(a: seq<T>, b: seq<T>, c: seq<T>)
    requires b != []
    ensures a + [b[0]] <= a + (b + c)
  {
    assert (a + (b + c))[..|a| + 1] == a + [b[0]];
  }

  lemma FirstIsLongest<T>(size: T -> nat, max: nat, rows: seq<T>, a: seq<seq<T>>, b: seq<seq<T>>)
    requires IsBatching(size, max, rows, a) && IsBatching(size, max, rows, b) && a != [] && b != []
    ensures |a[0]| >= |b[0]|
  {
    RowsAfterFirst(size, max, a);
    FlattenFirst(b);
    if |a| > 1 && |a[0]| < |b[0]| {
      PastFullDoesNotFit(size, max, a[0], a[1][0], b[0]);
    }
  }

  /** Whatever splits the rows by these rules splits them as the loop does. */
  lemma {:induction false} BatchingIsUnique<T>(size: T -> nat, max: nat, rows: seq<T>, a: seq<seq<T>>, b: seq<seq<T>>)
    requires IsBatching(size, max, rows, a) && IsBatching(size, max, rows, b)
    ensures a == b
    decreases |a|
  {
    if a == [] {
      if b != [] { FlattenFirst(b); }
    } else if b == [] {
      FlattenFirst(a);
    } else {
      FirstIsLongest(size, max, rows, a, b);
      FirstIsLongest(size, max, rows, b, a);
      FlattenFirst(a);
      FlattenFirst(b);
      assert a[0] == rows[..|a[0]|] == b[0];
      var rest := rows[|a[0]|..];
      assert Flatten(a[1..]) == rest && Flatten(b[1..]) == rest;
      BatchingIsUnique(size, max, rest, a[1..], b[1..]);
      assert a == [a[0]] + a[1..] && b == [b[0]] + b[1..];
    }
  }
}
