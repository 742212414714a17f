/**
 The run that encrypts every credential stored as plain text, while people may save columns
 between any two of its database calls.
 */
module Credentials {
  import opened Wrappers
  import opened Text

  datatype Model = QaBoardLink | ProjectWebhook

  datatype Column = Token | ApiKey | Secret

  datatype Cell = Cell(model: Model, id: nat, column: Column)

  /** What each column holds; empty text stands for nothing stored. */
  type Cells = map<Cell, Text>

  function ColumnsOf(m: Model): seq<Column>
  {
    match m case QaBoardLink => [Token, ApiKey] case ProjectWebhook => [Secret]
  }

  // ---- values ----

  const VAULT_PREFIX: Text := [118, 97, 117, 108, 116, 58, 118]

  predicate DigitsThenColon(t: Text)
  {
    |t| > 1 && IsDigit(t[0]) && (t[1] == COLON || DigitsThenColon(t[1..]))
  }

  /** The value starts `vault:v`, a number and a colon. */
  predicate IsEncrypted(t: Text)
  {
    VAULT_PREFIX <= t && DigitsThenColon(t[|VAULT_PREFIX|..])
  }

  predicate IsPlain(t: Text) { t != [] && !IsEncrypted(t) }

  /** Transit may answer differently at each call; whatever it answers is marked and decrypts. */
  datatype Transit = Transit(encrypt: (nat, Text) -> Text, decrypt: Text -> Text)

  ghost predicate Sound(t: Transit)
  {
    forall n: nat, p: Text :: IsEncrypted(t.encrypt(n, p)) && t.decrypt(t.encrypt(n, p)) == p
  }

  /** The credential a stored value stands for. */
  function Meaning(t: Transit, v: Text): Text { if IsEncrypted(v) then t.decrypt(v) else v }

  ghost predicate SameMeaning(t: Transit, a: Cells, b: Cells)
  {
    a.Keys == b.Keys && forall c :: c in a ==> Meaning(t, a[c]) == Meaning(t, b[c])
  }

  lemma WriteKeepsMeaning(t: Transit, cells: Cells, alone: Cells, c: Cell, ciphertext: Text)
    requires SameMeaning(t, cells, alone) && c in cells && IsPlain(cells[c])
    requires IsEncrypted(ciphertext) && t.decrypt(ciphertext) == cells[c]
    ensures SameMeaning(t, cells[c := ciphertext], alone)
  {
  }

  // ---- what people do meanwhile ----

  datatype Save = Put(cell: Cell, value: Text) | DropRow(model: Model, id: nat)

  function Saved(cells: Cells, s: Save): Cells
  {
    match s
    case Put(cell, value) => cells[cell := value]
    case DropRow(m, id) => map c | c in cells && !(c.model == m && c.id == id) :: cells[c]
  }

  function SavedAll(cells: Cells, saves: seq<Save>): Cells
  {
    if saves == [] then cells else Saved(SavedAll(cells, saves[..|saves| - 1]), saves[|saves| - 1])
  }

  lemma {:induction false} SavesKeepMeaning(t: Transit, a: Cells, b: Cells, saves: seq<Save>)
    requires SameMeaning(t, a, b)
    ensures SameMeaning(t, SavedAll(a, saves), SavedAll(b, saves))
    decreases |saves|
  {
    if saves != [] {
      SavesKeepMeaning(t, a, b, saves[..|saves| - 1]);
    }
  }

  // ---- reading in order of id ----

  function RowIds(cells: Cells, m: Model, after: Option<nat>): set<nat>
  {
    set c | c in cells && c.model == m && (after.None? || c.id > after.value) :: c.id
  }

  predicate IsLeast(s: set<nat>, m: nat)
  {
    m in s && forall x :: x in s ==> m <= x
  }

  lemma {:induction false} FindLeast(s: set<nat>) returns (m: nat)
    requires s != {}
    ensures IsLeast(s, m)
    decreases |s|
  {
    m :| m in s;
    var rest := s - {m};
    if rest != {} {
      var n := FindLeast(rest);
      assert forall x :: x in s ==> x == m || x in rest;
      m := if n < m then n else m;
    } else {
      assert s == {m};
    }
  }

  lemma HasLeast(s: set<nat>)
    requires s != {}
    ensures exists m :: IsLeast(s, m)
  {
    var m := FindLeast(s);
  }

  function Least(s: set<nat>): (m: nat)
    requires s != {}
    ensures IsLeast(s, m)
  {
    HasLeast(s);
    var m :| m in s && IsLeast(s, m);
    m
  }

  /** The first `take` of the ids, ascending. */
  function FirstIds(s: set<nat>, take: nat): (ids: seq<nat>)
    ensures |ids| <= take && (ids == [] <==> s == {} || take == 0)
    ensures forall i :: 0 <= i < |ids| ==> ids[i] in s
    ensures forall i, j :: 0 <= i < j < |ids| ==> ids[i] < ids[j]
    decreases take
  {
    if s == {} || take == 0 then [] else [Least(s)] + FirstIds(s - {Least(s)}, take - 1)
  }

  /** A page leaves out no id up to its last. */
  lemma {:induction false} FirstIdsAreAll(s: set<nat>, take: nat, x: nat)
    requires x in s && FirstIds(s, take) != [] && x <= FirstIds(s, take)[|FirstIds(s, take)| - 1]
    ensures x in FirstIds(s, take)
    decreases take
  {
    var m := Least(s);
    var tail := FirstIds(s - {m}, take - 1);
    assert FirstIds(s, take) == [m] + tail;
    if x != m {
      assert tail != [];
      FirstIdsAreAll(s - {m}, take - 1, x);
    }
  }

  // ---- the run ----

  datatype Summary = Summary(scanned: nat, alreadyEncrypted: nat, encrypted: nat, raced: nat)

  datatype Todo = Todo(cell: Cell, plaintext: Text)

  /** A value this run replaced, and what it put in its place. */
  datatype Write = Write(cell: Cell, before: Text, after: Text)

  ghost predicate GoodWrite(t: Transit, w: Write)
  {
    IsPlain(w.before) && IsEncrypted(w.after) && t.decrypt(w.after) == w.before
  }

  /** Nothing plain is left in the columns of `m`. */
  ghost predicate Done(cells: Cells, m: Model)
  {
    forall c :: c in cells && c.model == m && c.column in ColumnsOf(m) ==> !IsPlain(cells[c])
  }

  /** As far as id `upTo`, and nowhere yet when there is none. */
  ghost predicate DoneUpTo(cells: Cells, m: Model, upTo: Option<nat>)
  {
    forall c :: c in cells && c.model == m && c.column in ColumnsOf(m) && upTo.Some? && c.id <= upTo.value ==> !IsPlain(cells[c])
  }

  /** Some plain values of `m` are now encrypted; nothing else differs. */
  ghost predicate Encrypted(before: Cells, after: Cells, m: Model)
  {
    before.Keys == after.Keys && forall c :: c in before ==>
      after[c] == before[c] || (c.model == m && IsPlain(before[c]) && IsEncrypted(after[c]))
  }

  // ---- the work of one page ----

  function CellsOfRow(m: Model, id: nat, columns: seq<Column>): (r: seq<Cell>)
    ensures |r| == |columns|
  {
    seq(|columns|, k requires 0 <= k < |columns| => Cell(m, id, columns[k]))
  }

  /** The columns of a page, row by row. */
  function CellsOfPage(m: Model, ids: seq<nat>): seq<Cell>
  {
    if ids == [] then []
    else CellsOfPage(m, ids[..|ids| - 1]) + CellsOfRow(m, ids[|ids| - 1], ColumnsOf(m))
  }

  predicate Holds(cells: Cells, c: Cell) { c in cells && cells[c] != [] }

  predicate HoldsPlain(cells: Cells, c: Cell) { c in cells && IsPlain(cells[c]) }

  function TodoOf(cells: Cells, page: seq<Cell>): seq<Todo>
  {
    if page == [] then []
    else
      var c := page[|page| - 1];
      TodoOf(cells, page[..|page| - 1]) + if HoldsPlain(cells, c) then [Todo(c, cells[c])] else []
  }

  function CountHeld(cells: Cells, page: seq<Cell>): nat
  {
    if page == [] then 0
    else CountHeld(cells, page[..|page| - 1]) + if Holds(cells, page[|page| - 1]) then 1 else 0
  }

  lemma OneCellMore(cells: Cells, page: seq<Cell>, c: Cell)
    ensures TodoOf(cells, page + [c]) == TodoOf(cells, page) + if HoldsPlain(cells, c) then [Todo(c, cells[c])] else []
    ensures CountHeld(cells, page + [c]) == CountHeld(cells, page) + if Holds(cells, c) then 1 else 0
  {
    assert (page + [c])[..|page|] == page;
  }

  ghost predicate Distinct(page: seq<Cell>)
  {
    forall i, j :: 0 <= i < j < |page| ==> page[i] != page[j]
  }

  ghost predicate Listed(todo: seq<Todo>, c: Cell)
  {
    exists i :: 0 <= i < |todo| && todo[i].cell == c
  }

  ghost predicate GoodTodo(cells: Cells, page: seq<Cell>, t: Todo)
  {
    t.cell in page && t.cell in cells && cells[t.cell] == t.plaintext && IsPlain(t.plaintext)
  }

  ghost predicate Once(todo: seq<Todo>)
  {
    forall i, j :: 0 <= i < j < |todo| ==> todo[i].cell != todo[j].cell
  }

  lemma {:induction false} TodoIsExact(cells: Cells, page: seq<Cell>)
    requires Distinct(page)
    ensures var todo := TodoOf(cells, page);
      Once(todo) && (forall i :: 0 <= i < |todo| ==> GoodTodo(cells, page, todo[i])) &&
      (forall c :: c in page && HoldsPlain(cells, c) ==> Listed(todo, c))
    decreases |page|
  {
    if page != [] {
      var init, c := page[..|page| - 1], page[|page| - 1];
      assert page == init + [c];
      TodoIsExact(cells, init);
      var before, todo := TodoOf(cells, init), TodoOf(cells, page);
      forall i | 0 <= i < |todo| ensures GoodTodo(cells, page, todo[i]) {
        if i < |before| { assert GoodTodo(cells, init, before[i]); }
      }
      forall x | x in page && HoldsPlain(cells, x) ensures Listed(todo, x) {
        if x == c {
          assert todo[|before|].cell == x;
        } else {
          var i :| 0 <= i < |before| && before[i].cell == x;
          assert todo[i].cell == x;
        }
      }
      forall i, j | 0 <= i < j < |todo| ensures todo[i].cell != todo[j].cell {
        if j == |before| { assert GoodTodo(cells, init, before[i]); }
      }
    }
  }

  /** The values found, and those among them still to encrypt. */
  method ScanPage(cells: Cells, m: Model, ids: seq<nat>) returns (todo: seq<Todo>, scanned: nat, already: nat)
    ensures todo == TodoOf(cells, CellsOfPage(m, ids)) && scanned == CountHeld(cells, CellsOfPage(m, ids))
    ensures scanned == already + |todo|
  {
    todo, scanned, already := [], 0, 0;
    for i := 0 to |ids|
      invariant todo == TodoOf(cells, CellsOfPage(m, ids[..i])) && scanned == CountHeld(cells, CellsOfPage(m, ids[..i]))
      invariant scanned == already + |todo|
    {
      var columns := ColumnsOf(m);
      ghost var before := CellsOfPage(m, ids[..i]);
      assert before + CellsOfRow(m, ids[i], columns[..0]) == before;
      for k := 0 to |columns|
        invariant todo == TodoOf(cells, before + CellsOfRow(m, ids[i], columns[..k]))
        invariant scanned == CountHeld(cells, before + CellsOfRow(m, ids[i], columns[..k]))
        invariant scanned == already + |todo|
      {
        var cell := Cell(m, ids[i], columns[k]);
        RowGrows(before, m, ids[i], columns, k);
        OneCellMore(cells, before + CellsOfRow(m, ids[i], columns[..k]), cell);
        var value := if cell in cells then cells[cell] else [];
        if value == [] {
          continue;
        }
        scanned := scanned + 1;
        if IsEncrypted(value) {
          already := already + 1;
        } else {
          todo := todo + [Todo(cell, value)];
        }
      }
      PageGrows(m, ids, i);
    }
    assert ids[..|ids|] == ids;
  }

  lemma RowGrows(before: seq<Cell>, m: Model, id: nat, columns: seq<Column>, k: nat)
    requires k < |columns|
    ensures before + CellsOfRow(m, id, columns[..k + 1]) == before + CellsOfRow(m, id, columns[..k]) + [Cell(m, id, columns[k])]
  {
    assert CellsOfRow(m, id, columns[..k + 1]) == CellsOfRow(m, id, columns[..k]) + [Cell(m, id, columns[k])];
    Assoc(before, CellsOfRow(m, id, columns[..k]), [Cell(m, id, columns[k])]);
  }

  lemma PageGrows(m: Model, ids: seq<nat>, i: nat)
    requires i < |ids|
    ensures CellsOfPage(m, ids[..i + 1]) == CellsOfPage(m, ids[..i]) + CellsOfRow(m, ids[i], ColumnsOf(m)[..|ColumnsOf(m)|])
  {
    assert ids[..i + 1][..i] == ids[..i];
    assert ColumnsOf(m)[..|ColumnsOf(m)|] == ColumnsOf(m);
  }

  ghost predicate Ascending(ids: seq<nat>)
  {
    forall i, j :: 0 <= i < j < |ids| ==> ids[i] < ids[j]
  }

  /** A page holds the columns of its rows, each once. */
  lemma {:induction false} PageIsExact(m: Model, ids: seq<nat>)
    requires Ascending(ids)
    ensures Distinct(CellsOfPage(m, ids))
    ensures forall c :: c in CellsOfPage(m, ids) <==> c.model == m && c.id in ids && c.column in ColumnsOf(m)
    decreases |ids|
  {
    if ids != [] {
      var init, id := ids[..|ids| - 1], ids[|ids| - 1];
      assert ids == init + [id];
      PageIsExact(m, init);
      var before, row := CellsOfPage(m, init), CellsOfRow(m, id, ColumnsOf(m));
      RowIsExact(m, id);
      assert CellsOfPage(m, ids) == before + row;
      forall i, j | 0 <= i < |before| && 0 <= j < |row| ensures before[i] != row[j] {
        assert before[i] in before && row[j] in row;
      }
    }
  }

  lemma RowIsExact(m: Model, id: nat)
    ensures var row := CellsOfRow(m, id, ColumnsOf(m));
      Distinct(row) && forall c :: c in row <==> c.model == m && c.id == id && c.column in ColumnsOf(m)
  {
    var columns := ColumnsOf(m);
    var row := CellsOfRow(m, id, columns);
    forall c: Cell | c.model == m && c.id == id && c.column in columns ensures c in row {
      var k :| 0 <= k < |columns| && columns[k] == c.column;
      assert row[k] == c;
    }
  }

  // ---- one batch, one page, while nobody saves ----

  ghost predicate Ciphers(t: Transit, todo: Todo, ciphertext: Text)
  {
    IsCredential(todo.cell) && IsPlain(todo.plaintext) && IsEncrypted(ciphertext) && t.decrypt(ciphertext) == todo.plaintext
  }

  predicate IsCredential(c: Cell) { c.column in ColumnsOf(c.model) }

  ghost predicate AllCurrent(cells: Cells, todo: seq<Todo>)
  {
    Once(todo) && forall i :: 0 <= i < |todo| ==> todo[i].cell in cells && cells[todo[i].cell] == todo[i].plaintext
  }

  ghost predicate EncryptedHere(before: Cells, after: Cells, todo: seq<Todo>)
  {
    before.Keys == after.Keys && forall c :: c in before ==> EncryptedIfListed(before, after, todo, c)
  }

  ghost predicate EncryptedIfListed(before: Cells, after: Cells, todo: seq<Todo>, c: Cell)
    requires c in before && c in after
  {
    if Listed(todo, c) then IsEncrypted(after[c]) else after[c] == before[c]
  }

  lemma StillCurrent(before: Cells, cells: Cells, todo: seq<Todo>, i: nat)
    requires AllCurrent(before, todo) && i < |todo| && EncryptedHere(before, cells, todo[..i])
    ensures todo[i].cell in cells && cells[todo[i].cell] == todo[i].plaintext
  {
    assert !Listed(todo[..i], todo[i].cell);
    assert EncryptedIfListed(before, cells, todo[..i], todo[i].cell);
  }

  lemma OneWriteMore(before: Cells, cells: Cells, todo: seq<Todo>, i: nat, ciphertext: Text)
    requires i < |todo| && EncryptedHere(before, cells, todo[..i]) && todo[i].cell in cells && IsEncrypted(ciphertext)
    ensures EncryptedHere(before, cells[todo[i].cell := ciphertext], todo[..i + 1])
  {
    assert todo[..i + 1] == todo[..i] + [todo[i]];
    ListedMore(todo[..i], todo[i]);
    var after := cells[todo[i].cell := ciphertext];
    forall c | c in before ensures EncryptedIfListed(before, after, todo[..i + 1], c) {
      assert EncryptedIfListed(before, cells, todo[..i], c);
    }
  }

  lemma ListedMore(todo: seq<Todo>, t: Todo)
    ensures forall c :: Listed(todo + [t], c) <==> Listed(todo, c) || c == t.cell
  {
    assert (todo + [t])[|todo|] == t;
    forall c | Listed(todo, c) ensures Listed(todo + [t], c) {
      var i :| 0 <= i < |todo| && todo[i].cell == c;
      assert (todo + [t])[i].cell == c;
    }
  }

  /** The columns of `m` that hold something, in rows up to `upTo`. */
  ghost function HeldUpTo(cells: Cells, m: Model, upTo: Option<nat>): set<Cell>
  {
    set c | c in cells && c.model == m && c.column in ColumnsOf(m) && cells[c] != [] && upTo.Some? && c.id <= upTo.value
  }

  ghost function Held(cells: Cells, m: Model): set<Cell>
  {
    set c | c in cells && c.model == m && c.column in ColumnsOf(m) && cells[c] != []
  }

  ghost function HeldIn(cells: Cells, page: seq<Cell>): set<Cell>
  {
    set c | c in page && Holds(cells, c)
  }

  lemma {:induction false} CountIsSize(cells: Cells, page: seq<Cell>)
    requires Distinct(page)
    ensures CountHeld(cells, page) == |HeldIn(cells, page)|
    decreases |page|
  {
    if page == [] {
      assert HeldIn(cells, page) == {};
    } else {
      var init, c := page[..|page| - 1], page[|page| - 1];
      assert page == init + [c];
      CountIsSize(cells, init);
      assert c !in init;
      assert HeldIn(cells, page) == HeldIn(cells, init) + if Holds(cells, c) then {c} else {};
    }
  }

  /** A page takes the read on to its last row and skips none. */
  lemma PageReaches(cells: Cells, m: Model, cursor: Option<nat>, take: nat, ids: seq<nat>, c: Cell)
    requires ids == FirstIds(RowIds(cells, m, cursor), take) && ids != []
    requires c in cells && c.model == m && c.column in ColumnsOf(m)
    ensures c in CellsOfPage(m, ids) <==> c.id <= ids[|ids| - 1] && !(cursor.Some? && c.id <= cursor.value)
  {
    PageIsExact(m, ids);
    if c.id <= ids[|ids| - 1] && !(cursor.Some? && c.id <= cursor.value) {
      FirstIdsAreAll(RowIds(cells, m, cursor), take, c.id);
    }
    if c.id in ids {
      var i :| 0 <= i < |ids| && ids[i] == c.id;
      assert ids[i] in RowIds(cells, m, cursor);
    }
  }

  lemma DisjointSizes(a: set<Cell>, b: set<Cell>, c: set<Cell>)
    requires forall x :: x in c <==> x in a || x in b
    requires forall x :: x in a ==> x !in b
    ensures |c| == |a| + |b|
  {
    assert c == a + b;
  }

  lemma PageCounts(cells: Cells, m: Model, cursor: Option<nat>, take: nat, ids: seq<nat>)
    requires ids == FirstIds(RowIds(cells, m, cursor), take) && ids != []
    ensures |HeldUpTo(cells, m, Some(ids[|ids| - 1]))| == |HeldUpTo(cells, m, cursor)| + CountHeld(cells, CellsOfPage(m, ids))
  {
    var page := CellsOfPage(m, ids);
    var all, before, here := HeldUpTo(cells, m, Some(ids[|ids| - 1])), HeldUpTo(cells, m, cursor), HeldIn(cells, page);
    PageIsExact(m, ids);
    CountIsSize(cells, page);
    forall c ensures (c in all <==> c in before || c in here) && (c in before ==> c !in here) {
      PageMembers(cells, m, cursor, take, ids, c);
    }
    DisjointSizes(before, here, all);
  }

  lemma PageMembers(cells: Cells, m: Model, cursor: Option<nat>, take: nat, ids: seq<nat>, c: Cell)
    requires ids == FirstIds(RowIds(cells, m, cursor), take) && ids != []
    ensures var all, before, here :=
        HeldUpTo(cells, m, Some(ids[|ids| - 1])), HeldUpTo(cells, m, cursor), HeldIn(cells, CellsOfPage(m, ids));
      (c in all <==> c in before || c in here) && (c in before ==> c !in here)
  {
    PageIsExact(m, ids);
    assert ids[|ids| - 1] in RowIds(cells, m, cursor);
    if c in cells && c.model == m && c.column in ColumnsOf(m) {
      PageReaches(cells, m, cursor, take, ids, c);
    }
  }

  lemma PageIsDone(before: Cells, after: Cells, m: Model, cursor: Option<nat>, take: nat, ids: seq<nat>)
    requires ids == FirstIds(RowIds(before, m, cursor), take) && ids != []
    requires DoneUpTo(before, m, cursor)
    requires EncryptedHere(before, after, TodoOf(before, CellsOfPage(m, ids)))
    ensures DoneUpTo(after, m, Some(ids[|ids| - 1])) && Encrypted(before, after, m)
  {
    var page := CellsOfPage(m, ids);
    var todo := TodoOf(before, page);
    PageIsExact(m, ids);
    TodoIsExact(before, page);
    forall c | c in before ensures after[c] == before[c] || (c.model == m && IsPlain(before[c]) && IsEncrypted(after[c])) {
      assert EncryptedIfListed(before, after, todo, c);
      if Listed(todo, c) {
        var i :| 0 <= i < |todo| && todo[i].cell == c;
        assert GoodTodo(before, page, todo[i]);
      }
    }
    forall c | c in after && c.model == m && c.column in ColumnsOf(m) && c.id <= ids[|ids| - 1] ensures !IsPlain(after[c]) {
      PageReaches(before, m, cursor, take, ids, c);
      assert EncryptedIfListed(before, after, todo, c);
    }
  }

  lemma EncryptedKeepsHeld(before: Cells, after: Cells, m: Model, upTo: Option<nat>)
    requires Encrypted(before, after, m)
    ensures HeldUpTo(after, m, upTo) == HeldUpTo(before, m, upTo)
  {
  }

  lemma EncryptedIsTransitive(a: Cells, b: Cells, c: Cells, m: Model)
    requires Encrypted(a, b, m) && Encrypted(b, c, m)
    ensures Encrypted(a, c, m)
  {
  }

  lemma {:induction false} NothingTodo(cells: Cells, page: seq<Cell>)
    requires forall c :: c in page ==> !HoldsPlain(cells, c)
    ensures TodoOf(cells, page) == []
    decreases |page|
  {
    if page != [] {
      assert page[|page| - 1] in page;
      NothingTodo(cells, page[..|page| - 1]);
    }
  }

  lemma NothingTodoIn(cells: Cells, m: Model, ids: seq<nat>)
    requires Done(cells, m) && Ascending(ids)
    ensures TodoOf(cells, CellsOfPage(m, ids)) == []
  {
    PageIsExact(m, ids);
    NothingTodo(cells, CellsOfPage(m, ids));
  }

  lemma IsRowId(cells: Cells, m: Model, after: Option<nat>, c: Cell)
    requires c in cells && c.model == m && (after.None? || c.id > after.value)
    ensures c.id in RowIds(cells, m, after)
  {
  }

  /** The last page was empty: every row has been read. */
  lemma AllRead(cells: Cells, m: Model, cursor: Option<nat>)
    requires RowIds(cells, m, cursor) == {} && DoneUpTo(cells, m, cursor)
    ensures Done(cells, m) && HeldUpTo(cells, m, cursor) == Held(cells, m)
  {
    forall c | c in cells && c.model == m ensures cursor.Some? && c.id <= cursor.value {
      if cursor.None? || c.id > cursor.value {
        IsRowId(cells, m, cursor, c);
      }
    }
  }

  lemma RowIdsShrink(before: Cells, after: Cells, m: Model, cursor: Option<nat>, take: nat, ids: seq<nat>)
    requires before.Keys == after.Keys && ids == FirstIds(RowIds(before, m, cursor), take) && ids != []
    ensures RowIds(after, m, Some(ids[|ids| - 1])) < RowIds(before, m, cursor)
  {
    var last := ids[|ids| - 1];
    assert last in RowIds(before, m, cursor);
    assert last !in RowIds(after, m, Some(last));
    forall x | x in RowIds(after, m, Some(last)) ensures x in RowIds(before, m, cursor) {
      var c :| c in after && c.model == m && c.id > last && c.id == x;
      assert c in before;
    }
  }

  predicate Balanced(s: Summary)
  {
    s.scanned == s.alreadyEncrypted + s.encrypted + s.raced
  }

  /** How many of the moments to save at are still to come. */
  function Left(saves: seq<seq<Save>>, calls: nat): nat
  {
    if calls < |saves| then |saves| - calls else 0
  }

  /** With nobody saving: what the read has done up to `cursor`. */
  ghost predicate QuietSoFar(m: Model, dryRun: bool, first: Cells, now: Cells, before: Summary, s: Summary, cursor: Option<nat>)
  {
    s.raced == before.raced && s.scanned == before.scanned + |HeldUpTo(first, m, cursor)| &&
    Encrypted(first, now, m) && (if dryRun then now == first else DoneUpTo(now, m, cursor)) &&
    (Done(first, m) ==> now == first && s.encrypted == before.encrypted)
  }

  /** With nobody saving: what a whole pass over a model does. */
  ghost predicate QuietPass(m: Model, dryRun: bool, first: Cells, now: Cells, before: Summary, s: Summary)
  {
    s.raced == before.raced && s.scanned == before.scanned + |Held(first, m)| &&
    Encrypted(first, now, m) && (if dryRun then now == first else Done(now, m)) &&
    (Done(first, m) ==> now == first && s.encrypted == before.encrypted)
  }

  lemma QuietStart(m: Model, dryRun: bool, cells: Cells, s: Summary)
    ensures QuietSoFar(m, dryRun, cells, cells, s, s, None)
  {
    assert HeldUpTo(cells, m, None) == {};
  }

  lemma SameRowIds(a: Cells, b: Cells, m: Model, after: Option<nat>)
    requires a.Keys == b.Keys
    ensures RowIds(a, m, after) == RowIds(b, m, after)
  {
    assert forall c :: c in a <==> c in b;
  }

  ghost predicate QuietAfter(
    m: Model, dryRun: bool, first: Cells, now: Cells, before: Summary, s: Summary, cursor: Option<nat>, more: bool)
  {
    if more then QuietSoFar(m, dryRun, first, now, before, s, cursor) else QuietPass(m, dryRun, first, now, before, s)
  }

  lemma QuietEnd(m: Model, dryRun: bool, first: Cells, now: Cells, before: Summary, s: Summary, cursor: Option<nat>)
    requires QuietSoFar(m, dryRun, first, now, before, s, cursor) && RowIds(now, m, cursor) == {}
    ensures QuietPass(m, dryRun, first, now, before, s)
  {
    SameRowIds(first, now, m, cursor);
    forall c | c in first && c.model == m ensures cursor.Some? && c.id <= cursor.value {
      if cursor.None? || c.id > cursor.value {
        IsRowId(first, m, cursor, c);
      }
    }
    assert HeldUpTo(first, m, cursor) == Held(first, m);
    if !dryRun {
      AllRead(now, m, cursor);
    }
  }

  lemma NothingListed(before: Cells, after: Cells)
    ensures EncryptedHere(before, before, [])
    ensures EncryptedHere(before, after, []) ==> after == before
  {
    if EncryptedHere(before, after, []) {
      forall c | c in before ensures after[c] == before[c] {
        assert EncryptedIfListed(before, after, [], c);
      }
    }
  }

  /** What one page adds to the summary, `raced` apart. */
  ghost predicate PageAdds(s: Summary, s': Summary, page: seq<Cell>, cells: Cells)
  {
    s'.raced == s.raced && s'.scanned == s.scanned + CountHeld(cells, page) && s'.encrypted == s.encrypted + |TodoOf(cells, page)|
  }

  lemma QuietStep(
    m: Model, dryRun: bool, first: Cells, now: Cells, after: Cells, before: Summary, s: Summary, s': Summary,
    cursor: Option<nat>, take: nat, ids: seq<nat>)
    requires QuietSoFar(m, dryRun, first, now, before, s, cursor)
    requires ids == FirstIds(RowIds(now, m, cursor), take) && ids != []
    requires PageAdds(s, s', CellsOfPage(m, ids), now)
    requires if dryRun then after == now else EncryptedHere(now, after, TodoOf(now, CellsOfPage(m, ids)))
    ensures QuietSoFar(m, dryRun, first, after, before, s', Some(ids[|ids| - 1]))
  {
    var last := Some(ids[|ids| - 1]);
    PageCounts(now, m, cursor, take, ids);
    EncryptedKeepsHeld(first, now, m, cursor);
    EncryptedKeepsHeld(first, now, m, last);
    if !dryRun {
      PageIsDone(now, after, m, cursor, take, ids);
      EncryptedIsTransitive(first, now, after, m);
    }
    if Done(first, m) {
      NothingTodoIn(now, m, ids);
      NothingListed(now, after);
    }
  }

  // ---- what a run leaves, finished or not, while nobody saves ----

  /** Some plain credentials are now encrypted, each standing for what it was; nothing else differs. */
  ghost predicate Partly(t: Transit, before: Cells, after: Cells)
  {
    before.Keys == after.Keys && forall c :: c in before ==>
      after[c] == before[c] ||
      (IsCredential(c) && IsPlain(before[c]) && IsEncrypted(after[c]) && t.decrypt(after[c]) == before[c])
  }

  lemma PartlyOn(t: Transit, a: Cells, b: Cells, c: Cells)
    requires Partly(t, a, b) && Partly(t, b, c)
    ensures Partly(t, a, c)
  {
  }

  // ---- the database ----

  /** A call answers, or it throws, and then the database may have done it or not. */
  datatype Reply = Answers | Throws(done: bool)

  ghost predicate NoneFrom(saves: seq<seq<Save>>, calls: nat)
  {
    forall i :: calls <= i < |saves| ==> saves[i] == []
  }

  class Database {
    const transit: Transit
    /** What people save before each of the run's calls. */
    const saves: seq<seq<Save>>
    const reply: nat -> Reply
    const vaultThrows: nat -> bool
    var cells: Cells
    var calls: nat
    /** What the saves alone would have left. */
    ghost var alone: Cells
    ghost var writes: seq<Write>

    constructor (transit: Transit, saves: seq<seq<Save>>, reply: nat -> Reply, vaultThrows: nat -> bool, cells: Cells)
      ensures this.transit == transit && this.saves == saves && this.cells == cells
      ensures this.reply == reply && this.vaultThrows == vaultThrows
      ensures calls == 0 && alone == cells && writes == []
    {
      this.transit, this.saves, this.reply, this.vaultThrows := transit, saves, reply, vaultThrows;
      this.cells, this.calls := cells, 0;
      this.alone, this.writes := cells, [];
    }

    ghost predicate Valid()
      reads this
    {
      SameMeaning(transit, cells, alone) && forall i :: 0 <= i < |writes| ==> GoodWrite(transit, writes[i])
    }

    ghost predicate Quiet()
      reads this
    {
      NoneFrom(saves, calls)
    }

    /** What people save before the next call. */
    ghost function SavedNext(): Cells
      reads this
    {
      if calls < |saves| then SavedAll(cells, saves[calls]) else cells
    }

    method Tick()
      requires Valid()
      modifies this
      ensures Valid() && writes == old(writes) && calls == old(calls) + 1 && cells == old(SavedNext())
      ensures old(Quiet()) ==> Quiet() && cells == old(cells) && alone == old(alone)
      ensures old(cells == alone) ==> cells == alone
    {
      var now := if calls < |saves| then saves[calls] else [];
      SavesKeepMeaning(transit, cells, alone, now);
      cells, alone, calls := SavedAll(cells, now), SavedAll(alone, now), calls + 1;
    }

    method FindMany(m: Model, cursor: Option<nat>, take: nat) returns (ok: bool, ids: seq<nat>)
      requires Valid()
      modifies this
      ensures Valid() && writes == old(writes) && calls == old(calls) + 1 && ok == reply(old(calls)).Answers?
      ensures old(Quiet()) ==> Quiet() && cells == old(cells) && alone == old(alone)
      ensures old(cells == alone) ==> cells == alone
      ensures ids == if ok then FirstIds(RowIds(cells, m, cursor), take) else []
    {
      ok := reply(calls).Answers?;
      Tick();
      ids := if ok then FirstIds(RowIds(cells, m, cursor), take) else [];
    }

    /**
     The conditional write: it takes effect only while the column still holds what was read. `count`
     is the rows it changed, which the caller learns unless the call throws.
     */
    method UpdateMany(todo: Todo, ciphertext: Text) returns (ok: bool, count: nat)
      requires Valid() && Ciphers(transit, todo, ciphertext)
      modifies this
      ensures Valid() && calls == old(calls) + 1 && count <= 1 && old(writes) <= writes
      ensures ok == reply(old(calls)).Answers? && |writes| == |old(writes)| + count
      ensures count == 1 ==> writes == old(writes) + [Write(todo.cell, todo.plaintext, ciphertext)]
      ensures var now := old(SavedNext());
        (count == 1 <==> todo.cell in now && now[todo.cell] == todo.plaintext && reply(old(calls)) != Throws(false)) &&
        cells == if count == 1 then now[todo.cell := ciphertext] else now
      ensures old(Quiet()) ==> Quiet() && alone == old(alone) && Partly(transit, old(cells), cells)
      ensures ok && old(Quiet()) && todo.cell in old(cells) && old(cells)[todo.cell] == todo.plaintext ==>
        count == 1 && cells == old(cells)[todo.cell := ciphertext]
    {
      var answer := reply(calls);
      ok := answer.Answers?;
      Tick();
      if todo.cell in cells && cells[todo.cell] == todo.plaintext && answer != Throws(false) {
        WriteKeepsMeaning(transit, cells, alone, todo.cell, ciphertext);
        cells := cells[todo.cell := ciphertext];
        writes := writes + [Write(todo.cell, todo.plaintext, ciphertext)];
        count := 1;
      } else {
        count := 0;
      }
    }

    /** The writes of one batch: each takes effect on a value still as it was read, or counts as raced; one that throws is the last. */
    method WriteBatch(todo: seq<Todo>, ciphertexts: seq<Text>) returns (ok: bool, encrypted: nat, raced: nat)
      requires Valid() && |ciphertexts| == |todo|
      requires forall i :: 0 <= i < |todo| ==> Ciphers(transit, todo[i], ciphertexts[i])
      modifies this
      ensures Valid() && calls >= old(calls) && old(writes) <= writes
      ensures ok ==> encrypted + raced == |todo| && |writes| == |old(writes)| + encrypted
      ensures old(Quiet()) ==> Quiet() && alone == old(alone) && Partly(transit, old(cells), cells)
      ensures ok && old(Quiet() && AllCurrent(cells, todo)) ==> raced == 0 && EncryptedHere(old(cells), cells, todo)
    {
      encrypted, raced := 0, 0;
      ghost var quiet := Quiet();
      ghost var calm := quiet && AllCurrent(cells, todo);
      for i := 0 to |todo|
        invariant Valid() && calls >= old(calls) && encrypted + raced == i
        invariant old(writes) <= writes && |writes| == |old(writes)| + encrypted
        invariant quiet ==> Quiet() && alone == old(alone) && Partly(transit, old(cells), cells)
        invariant calm ==> raced == 0 && EncryptedHere(old(cells), cells, todo[..i])
      {
        assert Ciphers(transit, todo[i], ciphertexts[i]);
        if calm {
          StillCurrent(old(cells), cells, todo, i);
          OneWriteMore(old(cells), cells, todo, i, ciphertexts[i]);
        }
        ghost var before := cells;
        var count;
        ok, count := UpdateMany(todo[i], ciphertexts[i]);
        if quiet {
          PartlyOn(transit, old(cells), before, cells);
        }
        if !ok {
          return;
        }
        if count == 1 {
          encrypted := encrypted + 1;
        } else {
          raced := raced + 1;
        }
      }
      assert todo[..|todo|] == todo;
      ok := true;
    }

    /** The work of one page; a dry run only counts it. */
    method EncryptTodo(m: Model, ids: seq<nat>, todo: seq<Todo>, dryRun: bool) returns (ok: bool, encrypted: nat, raced: nat)
      requires Valid() && Sound(transit) && Ascending(ids) && todo == TodoOf(cells, CellsOfPage(m, ids))
      modifies this
      ensures Valid() && calls >= old(calls) && old(writes) <= writes && (ok ==> encrypted + raced == |todo|)
      ensures ok && !dryRun ==> |writes| == |old(writes)| + encrypted
      ensures dryRun ==> ok && cells == old(cells) && alone == old(alone) && writes == old(writes)
      ensures old(Quiet()) ==> Quiet() && alone == old(alone) && Partly(transit, old(cells), cells)
      ensures ok && old(Quiet()) ==> raced == 0 && (!dryRun ==> EncryptedHere(old(cells), cells, todo))
    {
      ok, encrypted, raced := true, 0, 0;
      if dryRun {
        encrypted := |todo|;
      } else if todo != [] {
        if vaultThrows(calls) {
          return false, 0, 0;
        }
        var ciphertexts := EncryptBatch(m, ids, todo);
        ok, encrypted, raced := WriteBatch(todo, ciphertexts);
      } else {
        NothingListed(cells, cells);
      }
    }

    /** One page after the cursor; `more` is false when there was none, or when a call threw. */
    method EncryptPage(m: Model, dryRun: bool, take: nat, cursor: Option<nat>, start: Summary,
      ghost calm: bool, ghost first: Cells, ghost before: Summary)
      returns (ok: bool, s: Summary, next: Option<nat>, more: bool)
      requires Valid() && Sound(transit) && Balanced(start) && take >= 1
      requires calm ==> Quiet() && QuietSoFar(m, dryRun, first, cells, before, start, cursor)
      modifies this
      ensures Valid() && old(writes) <= writes && (more ==> ok)
      ensures ok ==> Balanced(s) && s.encrypted >= start.encrypted
      ensures dryRun ==> writes == old(writes) && (old(cells == alone) ==> cells == alone)
      ensures ok && !dryRun ==> |writes| - |old(writes)| == s.encrypted - start.encrypted
      ensures calm ==> Quiet() && alone == old(alone) && Partly(transit, old(cells), cells)
      ensures calm && dryRun ==> cells == old(cells)
      ensures ok && calm ==> QuietAfter(m, dryRun, first, cells, before, s, next, more)
      ensures calls > old(calls)
      ensures more && old(calls) >= |saves| ==> RowIds(cells, m, next) < old(RowIds(cells, m, cursor))
    {
      s, next, more := start, cursor, false;
      var ids;
      ok, ids := FindMany(m, cursor, take);
      if !ok {
        return;
      }
      if ids == [] {
        if calm {
          QuietEnd(m, dryRun, first, cells, before, s, cursor);
        }
        return;
      }
      ghost var read := cells;
      ghost var page := CellsOfPage(m, ids);
      var todo, scanned, already := ScanPage(cells, m, ids);
      s := s.(scanned := s.scanned + scanned, alreadyEncrypted := s.alreadyEncrypted + already);
      var encrypted, raced;
      ok, encrypted, raced := EncryptTodo(m, ids, todo, dryRun);
      if !ok {
        return;
      }
      s, more := s.(encrypted := s.encrypted + encrypted, raced := s.raced + raced), true;
      next := Some(ids[|ids| - 1]);
      if calm {
        QuietStep(m, dryRun, first, read, cells, before, start, s, cursor, take, ids);
      }
      if read.Keys == cells.Keys {
        RowIdsShrink(read, cells, m, cursor, take, ids);
      }
    }

    method EncryptBatch(m: Model, ids: seq<nat>, todo: seq<Todo>) returns (ciphertexts: seq<Text>)
      requires Sound(transit) && Ascending(ids) && todo == TodoOf(cells, CellsOfPage(m, ids))
      ensures |ciphertexts| == |todo| && forall i :: 0 <= i < |todo| ==> Ciphers(transit, todo[i], ciphertexts[i])
      ensures AllCurrent(cells, todo)
    {
      var base := calls;
      ciphertexts := seq(|todo|, i requires 0 <= i < |todo| => transit.encrypt(base + i, todo[i].plaintext));
      PageIsExact(m, ids);
      TodoIsExact(cells, CellsOfPage(m, ids));
      forall i | 0 <= i < |todo| ensures Ciphers(transit, todo[i], ciphertexts[i]) {
        assert GoodTodo(cells, CellsOfPage(m, ids), todo[i]);
      }
      forall i | 0 <= i < |todo| ensures todo[i].cell in cells && cells[todo[i].cell] == todo[i].plaintext {
        assert GoodTodo(cells, CellsOfPage(m, ids), todo[i]);
      }
    }

    /** One model's rows, a page at a time after a cursor. */
    method EncryptModel(m: Model, dryRun: bool, take: nat, before: Summary) returns (ok: bool, s: Summary)
      requires Valid() && Sound(transit) && Balanced(before) && take >= 1
      modifies this
      ensures Valid() && old(writes) <= writes && (ok ==> Balanced(s) && s.encrypted >= before.encrypted)
      ensures dryRun ==> writes == old(writes) && (old(cells == alone) ==> cells == alone)
      ensures ok && !dryRun ==> |writes| - |old(writes)| == s.encrypted - before.encrypted
      ensures old(Quiet()) ==> Quiet() && alone == old(alone) && Partly(transit, old(cells), cells)
      ensures old(Quiet()) && dryRun ==> cells == old(cells)
      ensures ok && old(Quiet()) ==> QuietPass(m, dryRun, old(cells), cells, before, s)
    {
      s := before;
      var cursor: Option<nat> := None;
      ghost var calm := Quiet();
      QuietStart(m, dryRun, cells, before);
      while true
        invariant Valid() && Balanced(s) && old(writes) <= writes && s.encrypted >= before.encrypted
        invariant dryRun ==> writes == old(writes) && (old(cells == alone) ==> cells == alone)
        invariant !dryRun ==> |writes| - |old(writes)| == s.encrypted - before.encrypted
        invariant calm ==> Quiet() && alone == old(alone) && Partly(transit, old(cells), cells)
        invariant calm ==> QuietSoFar(m, dryRun, old(cells), cells, before, s, cursor)
        decreases Left(saves, calls), RowIds(cells, m, cursor)
      {
        ghost var now := cells;
        var more;
        ok, s, cursor, more := EncryptPage(m, dryRun, take, cursor, s, calm, old(cells), before);
        if calm {
          PartlyOn(transit, old(cells), now, cells);
        }
        if !more {
          return;
        }
      }
    }

    /**
     The whole run; none when a call throws, which ends it. Whatever people save meanwhile, and
     wherever it ends: every value the run replaced was the plain text it had read, and every column
     stands for what it would have held without the run. Finished, the counts add up. With nobody
     saving, a run that ends early leaves each column as it was or encrypted, a finished one leaves
     nothing plain, and one that finds nothing plain changes nothing.
     */
    method EncryptPlaintextCredentials(dryRun: bool, take: nat) returns (r: Option<Summary>)
      requires Valid() && Sound(transit) && take >= 1
      modifies this
      ensures Valid() && SameMeaning(transit, cells, alone)
      ensures old(writes) <= writes && forall i :: |old(writes)| <= i < |writes| ==> GoodWrite(transit, writes[i])
      ensures r.Some? ==> r.value.scanned == r.value.alreadyEncrypted + r.value.encrypted + r.value.raced
      ensures r.Some? && !dryRun ==> r.value.encrypted == |writes| - |old(writes)|
      ensures dryRun ==> writes == old(writes) && (old(cells == alone) ==> cells == alone)
      ensures old(Quiet()) ==> Quiet() && alone == old(alone) && Partly(transit, old(cells), cells)
      ensures old(Quiet()) && (dryRun || old(NothingPlain(cells))) ==> cells == old(cells)
      ensures old(Quiet()) && r.Some? ==> r.value.raced == 0 && r.value.scanned == |AllHeld(old(cells))|
      ensures old(Quiet()) && r.Some? && !dryRun ==> NothingPlain(cells)
      ensures old(Quiet() && NothingPlain(cells)) && r.Some? ==> r.value.encrypted == 0
    {
      var s, ok := Summary(0, 0, 0, 0), true;
      ok, s := EncryptModel(QaBoardLink, dryRun, take, s);
      ghost var middle := cells;
      if !ok {
        return None;
      }
      ok, s := EncryptModel(ProjectWebhook, dryRun, take, s);
      if old(Quiet()) {
        PartlyOn(transit, old(cells), middle, cells);
      }
      if !ok {
        return None;
      }
      if old(Quiet()) {
        PassesMeet(old(cells), middle, cells);
      }
      r := Some(s);
    }
  }

  /** Every column that holds something. */
  ghost function AllHeld(cells: Cells): set<Cell>
  {
    set c | c in cells && IsCredential(c) && cells[c] != []
  }

  ghost predicate NothingPlain(cells: Cells)
  {
    forall c :: c in cells && IsCredential(c) ==> !IsPlain(cells[c])
  }

  lemma PassesMeet(first: Cells, middle: Cells, last: Cells)
    requires Encrypted(first, middle, QaBoardLink) && Encrypted(middle, last, ProjectWebhook)
    ensures |AllHeld(first)| == |Held(first, QaBoardLink)| + |Held(middle, ProjectWebhook)|
    ensures Done(middle, QaBoardLink) ==> Done(last, QaBoardLink)
    ensures NothingPlain(first) ==> Done(first, QaBoardLink) && (middle == first ==> Done(middle, ProjectWebhook))
    ensures Done(last, QaBoardLink) && Done(last, ProjectWebhook) ==> NothingPlain(last)
  {
    assert Held(middle, ProjectWebhook) == Held(first, ProjectWebhook);
    DisjointSizes(Held(first, QaBoardLink), Held(first, ProjectWebhook), AllHeld(first));
  }
}
