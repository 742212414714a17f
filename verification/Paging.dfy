/**
 Reading lists page by page: the page number asked of Legal, the loop that splits a large
 read of signatures with images, and the loop that reads a whole list.
 */
module Paging {
  datatype Page<T> = Page(items: seq<T>, total: nat)

  /** Legal pages hold at most this many rows, and this many where images come along. */
  const MAX_PER_PAGE := 200
  const MAX_WITH_IMAGES := 50

  function Min(a: nat, b: nat): nat { if a < b then a else b }

  function Max(a: nat, b: nat): nat { if a > b then a else b }

  /** Rows `skip` to `skip + take`, as far as the table goes. */
  function Window<T>(rows: seq<T>, skip: nat, take: nat): seq<T>
  {
    rows[Min(skip, |rows|)..Min(skip + take, |rows|)]
  }

  function PageStart(page: nat, size: nat): nat
    requires page >= 1
  {
    (page - 1) * size
  }

  /** A page as Legal serves it: pages are numbered from 1 and never overlap. */
  function Serve<T>(rows: seq<T>, perPage: nat, page: nat, cap: nat): Page<T>
    requires page >= 1
  {
    var size := Min(perPage, cap);
    Page(Window(rows, PageStart(page, size), size), |rows|)
  }

  function PerPage(take: nat): nat { Min(MAX_PER_PAGE, Max(1, take)) }

  function PageNumber(skip: nat, take: nat): (page: nat)
    ensures page >= 1
  {
    skip / Max(1, take) + 1
  }

  /** What one request for rows `skip` to `skip + take` brings. */
  function Fetch<T>(rows: seq<T>, skip: nat, take: nat, cap: nat): Page<T>
  {
    Serve(rows, PerPage(take), PageNumber(skip, take), cap)
  }

  lemma DivMul(n: nat, d: nat)
    requires d > 0
    ensures (n / d) * d == n - n % d
  {
  }

  lemma MulGrows(a: nat, b: nat, d: nat)
    requires a < b
    ensures a * d + d <= b * d
  {
    var c := b - a - 1;
    assert c * d >= 0;
    assert b == a + 1 + c;
    assert b * d == a * d + d + c * d;
  }

  lemma MulMod(q: nat, d: nat)
    requires d > 0
    ensures (q * d) % d == 0
  {
    var n := q * d;
    var p := n / d;
    DivMul(n, d);
    if p < q {
      MulGrows(p, q, d);
    } else if q < p {
      MulGrows(q, p, d);
    }
  }

  lemma AddMod(n: nat, d: nat)
    requires d > 0 && n % d == 0
    ensures (n + d) % d == 0
  {
    DivMul(n, d);
    var q := n / d;
    assert n + d == (q + 1) * d;
    MulMod(q + 1, d);
  }

  /** The request suits the window: no longer than a page, and starting where a page starts. */
  predicate Aligned(skip: nat, take: nat, cap: nat)
  {
    1 <= take <= MAX_PER_PAGE && take <= cap && skip % take == 0
  }

  lemma AlignedIsExact<T>(rows: seq<T>, skip: nat, take: nat, cap: nat)
    requires Aligned(skip, take, cap)
    ensures Fetch(rows, skip, take, cap) == Page(Window(rows, skip, take), |rows|)
  {
    DivMul(skip, take);
  }

  /** The table whose row `i` is `i`: it shows every shift. */
  function Counting(n: nat): seq<nat> { seq(n, i => i) }

  /** One request brings exactly the rows asked for, on every table, if and only if it is aligned. */
  lemma PageOfIsExact(skip: nat, take: nat, cap: nat)
    requires 1 <= cap
    ensures Aligned(skip, take, cap) <==>
      forall rows: seq<nat> :: Fetch(rows, skip, take, cap).items == Window(rows, skip, take)
  {
    if Aligned(skip, take, cap) {
      forall rows: seq<nat> ensures Fetch(rows, skip, take, cap).items == Window(rows, skip, take) {
        AlignedIsExact(rows, skip, take, cap);
      }
    } else {
      MisalignedIsWrong(skip, take, cap);
    }
  }

  lemma CountingTellsApart(a: nat, n: nat, b: nat, m: nat)
    requires n != m || (n > 0 && a != b)
    ensures var rows := Counting(a + n + b + m); Window(rows, a, n) != Window(rows, b, m)
  {
    var rows := Counting(a + n + b + m);
    assert |Window(rows, a, n)| == n && |Window(rows, b, m)| == m;
    if n == m {
      assert Window(rows, a, n)[0] == a && Window(rows, b, m)[0] == b;
    }
  }

  function SizeServed(take: nat, cap: nat): nat { Min(PerPage(take), cap) }

  /** Where the page that answers a request starts. */
  function StartServed(skip: nat, take: nat, cap: nat): nat
  {
    PageStart(PageNumber(skip, take), SizeServed(take, cap))
  }

  lemma FetchServes<T>(rows: seq<T>, skip: nat, take: nat, cap: nat)
    ensures Fetch(rows, skip, take, cap).items == Window(rows, StartServed(skip, take, cap), SizeServed(take, cap))
  {
  }

  lemma MisalignedStart(skip: nat, take: nat, cap: nat)
    requires take > 0 && skip % take != 0 && SizeServed(take, cap) == take
    ensures StartServed(skip, take, cap) != skip
  {
    DivMul(skip, take);
  }

  lemma MisalignedIsWrong(skip: nat, take: nat, cap: nat)
    requires 1 <= cap && !Aligned(skip, take, cap)
    ensures exists rows: seq<nat> :: Fetch(rows, skip, take, cap).items != Window(rows, skip, take)
  {
    var size, start := SizeServed(take, cap), StartServed(skip, take, cap);
    if size == take {
      MisalignedStart(skip, take, cap);
    }
    CountingTellsApart(start, size, skip, take);
    FetchServes(Counting(start + size + skip + take), skip, take, cap);
  }

  // ---- signatures with images ----

  function Gcd(a: nat, b: nat): (g: nat)
    requires a > 0 || b > 0
    ensures g >= 1 && a % g == 0 && b % g == 0
    decreases b
  {
    if b == 0 then a
    else
      var g := Gcd(b, a % b);
      DividesBack(a, b, g);
      g
  }

  lemma DividesBack(a: nat, b: nat, g: nat)
    requires b > 0 && g > 0 && b % g == 0 && (a % b) % g == 0
    ensures a % g == 0
  {
    DivMul(a, b);
    DivMul(b, g);
    DivMul(a % b, g);
    var q, r, s := a / b, b / g, (a % b) / g;
    calc {
      a;
      q * b + a % b;
      q * (r * g) + s * g;
      (q * r + s) * g;
    }
    MulMod(q * r + s, g);
  }

  lemma DividesTrans(a: nat, b: nat, c: nat)
    requires b > 0 && c > 0 && a % b == 0 && b % c == 0
    ensures a % c == 0
  {
    DivMul(a, b);
    DivMul(b, c);
    var q, r := a / b, b / c;
    assert a == (q * r) * c;
    MulMod(q * r, c);
  }

  /** The largest size Legal takes that divides both bounds' common divisor. */
  method PageSize(common: nat) returns (size: nat)
    requires common >= 1
    ensures 1 <= size <= MAX_WITH_IMAGES && common % size == 0
    ensures forall s :: size < s <= MAX_WITH_IMAGES ==> common % s != 0
  {
    size := Min(MAX_WITH_IMAGES, common);
    while common % size != 0
      invariant 1 <= size <= MAX_WITH_IMAGES && size <= common
      invariant size == 1 ==> common % size == 0
      decreases size
      invariant forall s :: size < s <= MAX_WITH_IMAGES ==> common % s != 0
    {
      size := size - 1;
    }
  }

  /** The same as `n % d == 0`, step by step. */
  predicate Divides(d: nat, n: nat)
    requires d > 0
    decreases n
  {
    n == 0 || (d <= n && Divides(d, n - d))
  }

  lemma {:induction false} DividesIsMod(d: nat, n: nat)
    requires d > 0
    ensures Divides(d, n) <==> n % d == 0
    decreases n
  {
    if n >= d {
      DividesIsMod(d, n - d);
      SubMod(n, d);
    } else if n > 0 {
      assert n % d == n;
    }
  }

  lemma SubMod(n: nat, d: nat)
    requires 0 < d <= n
    ensures n % d == 0 <==> (n - d) % d == 0
  {
    if n % d == 0 {
      DivMul(n, d);
      assert n / d >= 1;
      assert n - d == (n / d - 1) * d;
      MulMod(n / d - 1, d);
    } else if (n - d) % d == 0 {
      AddMod(n - d, d);
    }
  }

  lemma {:induction false} NextMultiple(size: nat, from: nat, end: nat)
    requires size > 0 && from < end && Divides(size, from) && Divides(size, end)
    ensures from + size <= end && Divides(size, from + size)
    decreases from
  {
    if from > 0 {
      NextMultiple(size, from - size, end - size);
    }
  }

  /** A size that divides both ends of the window, and so every place a page of it starts. */
  method CommonSize(skip: nat, take: nat) returns (size: nat)
    requires take > 0
    ensures 1 <= size <= MAX_WITH_IMAGES && Divides(size, skip) && Divides(size, skip + take)
  {
    var common := Gcd(skip, take);
    size := PageSize(common);
    DividesTrans(skip, common, size);
    DividesTrans(take, common, size);
    DivMul(skip, size);
    DivMul(take, size);
    assert skip + take == (skip / size + take / size) * size;
    MulMod(skip / size + take / size, size);
    DividesIsMod(size, skip);
    DividesIsMod(size, skip + take);
  }

  method FetchWithImages<T>(rows: seq<T>, skip: nat, take: nat) returns (page: Page<T>)
    requires 1 <= take <= MAX_WITH_IMAGES && Divides(take, skip)
    ensures page == Page(Window(rows, skip, take), |rows|)
  {
    DividesIsMod(take, skip);
    AlignedIsExact(rows, skip, take, MAX_WITH_IMAGES);
    page := Fetch(rows, skip, take, MAX_WITH_IMAGES);
  }

  /** Rows `skip` to `end`, as far as the table goes. */
  function Range<T>(rows: seq<T>, skip: nat, end: nat): seq<T>
    requires skip <= end
  {
    Window(rows, skip, end - skip)
  }

  lemma RangeGrows<T>(rows: seq<T>, skip: nat, from: nat, size: nat)
    requires skip <= from
    ensures Range(rows, skip, from) + Window(rows, from, size) == Range(rows, skip, from + size)
  {
  }

  lemma ShortPageIsLast<T>(rows: seq<T>, skip: nat, from: nat, size: nat, end: nat)
    requires skip <= from && from + size <= end && |Window(rows, from, size)| < size
    ensures Range(rows, skip, from + size) == Range(rows, skip, end)
  {
  }

  function CapOf(withImages: bool): nat { if withImages then MAX_WITH_IMAGES else MAX_PER_PAGE }

  /**
   On any table, with images and more than a page of them: the rows from `skip` to `skip + take`,
   whatever the two numbers share. A smaller request goes out as it is.
   */
  method Signatures<T>(rows: seq<T>, skip: nat, take: nat, withImages: bool) returns (r: Page<T>)
    ensures withImages && take > MAX_WITH_IMAGES ==> r == Page(Window(rows, skip, take), |rows|)
    ensures !(withImages && take > MAX_WITH_IMAGES) ==> r == Fetch(rows, skip, take, CapOf(withImages))
  {
    if !withImages || take <= MAX_WITH_IMAGES {
      return Fetch(rows, skip, take, CapOf(withImages));
    }
    r := SignaturesInPages(rows, skip, take);
  }

  method SignaturesInPages<T>(rows: seq<T>, skip: nat, take: nat) returns (r: Page<T>)
    requires take > 0
    ensures r == Page(Window(rows, skip, take), |rows|)
  {
    var size := CommonSize(skip, take);
    var items: seq<T> := [];
    var total := 0;
    var from, end := skip, skip + take;
    while from < end
      invariant skip <= from <= end && Divides(size, from)
      invariant items == Range(rows, skip, from)
      invariant from > skip ==> total == |rows|
      decreases end - from
    {
      var page := FetchWithImages(rows, from, size);
      RangeGrows(rows, skip, from, size);
      NextMultiple(size, from, end);
      items := items + page.items;
      total := page.total;
      if |page.items| < size {
        ShortPageIsLast(rows, skip, from, size, end);
        return Page(items, total);
      }
      from := from + size;
    }
    r := Page(items, total);
  }

  // ---- the whole list ----

  ghost predicate ReadsTable<T(!new)>(read: (nat, nat) -> Page<T>, rows: seq<T>, size: nat)
    requires size >= 1
  {
    forall skip: nat :: skip % size == 0 ==> read(skip, size) == Page(Window(rows, skip, size), |rows|)
  }

  /** Every row once, in order. */
  method AllPages<T(!new)>(read: (nat, nat) -> Page<T>, size: nat, ghost rows: seq<T>) returns (items: seq<T>)
    requires size >= 1 && ReadsTable(read, rows, size)
    ensures items == rows
  {
    items := [];
    var skip := 0;
    while true
      invariant skip % size == 0 && items == Range(rows, 0, skip)
      invariant skip > 0 ==> skip < |rows|
      decreases |rows| + 1 - skip
    {
      var page := read(skip, size);
      RangeGrows(rows, 0, skip, size);
      items := items + page.items;
      if |page.items| < size || |items| >= page.total {
        return;
      }
      AddMod(skip, size);
      skip := skip + size;
    }
  }

  /** A list kept in Legal, read whole for an export. */
  method LegalList<T(!new)>(rows: seq<T>, size: nat, cap: nat) returns (items: seq<T>)
    requires 1 <= size <= MAX_PER_PAGE && size <= cap
    ensures items == rows
  {
    var read := (skip: nat, take: nat) => Fetch(rows, skip, take, cap);
    forall skip: nat | skip % size == 0 ensures read(skip, size) == Page(Window(rows, skip, size), |rows|) {
      AlignedIsExact(rows, skip, size, cap);
    }
    items := AllPages(read, size, rows);
  }
}
