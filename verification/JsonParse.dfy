/**
 `JSON.parse` (RFC 8259, integers only), and the proof that it reads back what
 `JSON.stringify` and the key-sorted text wrote.
 */
module JsonParse {
  import opened Wrappers
  import opened Text
  import opened Json

  function SkipBlank(s: Text): (r: Text)
    ensures |r| <= |s|
  {
    if s != [] && (s[0] == SPACE || s[0] == 9 || s[0] == 10 || s[0] == 13) then SkipBlank(s[1..]) else s
  }

  function HexValue(u: CodeUnit): (d: Option<CodeUnit>)
    ensures d.Some? ==> d.value < 16
  {
    if IsDigit(u) then Some(u - 48)
    else if 97 <= u <= 102 then Some(u - 87)
    else if 65 <= u <= 70 then Some(u - 55)
    else None
  }

  function UnescapeUnit(u: CodeUnit): Option<CodeUnit>
  {
    if u == QUOTE || u == BACKSLASH || u == 47 then Some(u)
    else if u == 98 then Some(8) else if u == 116 then Some(9) else if u == 110 then Some(10)
    else if u == 102 then Some(12) else if u == 114 then Some(13) else None
  }

  /** Four hexadecimal digits as one code unit. */
  function UnescapeHex(a: CodeUnit, b: CodeUnit, c: CodeUnit, d: CodeUnit): Option<CodeUnit>
  {
    match (HexValue(a), HexValue(b), HexValue(c), HexValue(d))
    case (Some(w), Some(x), Some(y), Some(z)) => Some(16 * (16 * (16 * w + x) + y) + z)
    case _ => None
  }

  /** The rest of a string whose opening quote was read. */
  function ParseString(s: Text): (r: Option<(Text, Text)>)
    ensures r.Some? ==> |r.value.1| < |s|
    decreases |s|
  {
    if s == [] || s[0] < 32 then None
    else if s[0] == QUOTE then Some(([], s[1..]))
    else if s[0] != BACKSLASH then Prepend(s[0], ParseString(s[1..]))
    else if |s| >= 2 && s[1] != 117 then
      match UnescapeUnit(s[1])
      case Some(u) => Prepend(u, ParseString(s[2..]))
      case None => None
    else if |s| >= 6 && s[1] == 117 then
      match UnescapeHex(s[2], s[3], s[4], s[5])
      case Some(u) => Prepend(u, ParseString(s[6..]))
      case None => None
    else None
  }

  function Prepend(u: CodeUnit, tail: Option<(Text, Text)>): Option<(Text, Text)>
  {
    match tail
    case Some((t, rest)) => Some(([u] + t, rest))
    case None => None
  }

  /** How many leading units are digits. */
  function DigitRun(s: Text): (n: nat)
    ensures n <= |s| && forall i :: 0 <= i < n ==> IsDigit(s[i])
    ensures n < |s| ==> !IsDigit(s[n])
  {
    if s != [] && IsDigit(s[0]) then 1 + DigitRun(s[1..]) else 0
  }

  /** Digits without a leading zero. */
  function ParseMagnitude(s: Text): (r: Option<(nat, Text)>)
    ensures r.Some? ==> |r.value.1| < |s|
  {
    var n := DigitRun(s);
    if n == 0 || (n > 1 && s[0] == 48) then None else Some((DigitsValue(s[..n]), s[n..]))
  }

  function ParseNumber(s: Text): (r: Option<(Json, Text)>)
    ensures r.Some? ==> |r.value.1| < |s|
  {
    var negative := s != [] && s[0] == 45;
    match ParseMagnitude(if negative then s[1..] else s)
    case None => None
    case Some((m, rest)) => Some((Num(if negative then 0 - m else m), rest))
  }

  function ParseWord(s: Text, word: Text, v: Json): (r: Option<(Json, Text)>)
    requires word != []
    ensures r.Some? ==> |r.value.1| < |s|
  {
    if word <= s then Some((v, s[|word|..])) else None
  }

  function ParseValue(s: Text): (r: Option<(Json, Text)>)
    ensures r.Some? ==> |r.value.1| < |s|
    decreases |s|, 0
  {
    var t := SkipBlank(s);
    if t == [] then None
    else if t[0] == 110 then ParseWord(t, NULL_TEXT, Null)
    else if t[0] == 116 then ParseWord(t, TRUE_TEXT, Bool(true))
    else if t[0] == 102 then ParseWord(t, FALSE_TEXT, Bool(false))
    else if t[0] == QUOTE then
      match ParseString(t[1..])
      case Some((text, rest)) => Some((Str(text), rest))
      case None => None
    else if t[0] == 91 then
      var u := SkipBlank(t[1..]);
      if u != [] && u[0] == 93 then Some((Arr([]), u[1..]))
      else
        match ParseItems(u)
        case Some((items, rest)) => Some((Arr(items), rest))
        case None => None
    else if t[0] == 123 then
      var u := SkipBlank(t[1..]);
      if u != [] && u[0] == 125 then Some((Obj([]), u[1..]))
      else
        match ParseFields(u, [])
        case Some((fs, rest)) => Some((Obj(fs), rest))
        case None => None
    else ParseNumber(t)
  }

  function ParseItems(s: Text): (r: Option<(seq<Json>, Text)>)
    ensures r.Some? ==> |r.value.1| < |s|
    decreases |s|, 1
  {
    match ParseValue(s)
    case None => None
    case Some((v, rest)) =>
      var t := SkipBlank(rest);
      if t == [] then None
      else if t[0] == 93 then Some(([v], t[1..]))
      else if t[0] != COMMA then None
      else
        match ParseItems(t[1..])
        case Some((items, after)) => Some(([v] + items, after))
        case None => None
  }

  /** A key that comes again replaces the value in place. */
  function SetField(fs: seq<Field>, k: Text, v: Json): seq<Field>
  {
    if HasKey(fs, k) then fs[IndexOf(fs, k) := (k, v)] else fs + [(k, v)]
  }

  function ParseFields(s: Text, read: seq<Field>): (r: Option<(seq<Field>, Text)>)
    ensures r.Some? ==> |r.value.1| < |s|
    decreases |s|, 1
  {
    if s == [] || s[0] != QUOTE then None
    else
      match ParseString(s[1..])
      case None => None
      case Some((k, rest)) =>
        var t := SkipBlank(rest);
        if t == [] || t[0] != COLON then None
        else
          match ParseValue(t[1..])
          case None => None
          case Some((v, after)) =>
            var u := SkipBlank(after);
            if u == [] then None
            else if u[0] == 125 then Some((SetField(read, k, v), u[1..]))
            else if u[0] != COMMA then None
            else ParseFields(SkipBlank(u[1..]), SetField(read, k, v))
  }

  /** `JSON.parse`: `None` where it throws. */
  function Parse(s: Text): Option<Json>
  {
    match ParseValue(s)
    case Some((v, rest)) => if SkipBlank(rest) == [] then Some(v) else None
    case None => None
  }

  // ---- reading back what was written ----

  lemma HexDigitRoundTrip(d: CodeUnit)
    requires d < 16
    ensures HexValue(HexDigit(d)) == Some(d)
  {
  }

  lemma HexRoundTrip(u: CodeUnit)
    ensures var e := UEscape(u); UnescapeHex(e[2], e[3], e[4], e[5]) == Some(u)
  {
    var q1 := u / 16;
    var q2 := q1 / 16;
    HexDigitRoundTrip(q2 / 16);
    HexDigitRoundTrip(q2 % 16);
    HexDigitRoundTrip(q1 % 16);
    HexDigitRoundTrip(u % 16);
  }

  lemma PlainUnit(u: CodeUnit, tail: Text)
    requires u >= 32 && u != QUOTE && u != BACKSLASH
    ensures ParseString([u] + tail) == Prepend(u, ParseString(tail))
  {
    assert ([u] + tail)[1..] == tail;
  }

  lemma UnitRoundTrip(u: CodeUnit, tail: Text)
    ensures ParseString(EscapeUnit(u) + tail) == Prepend(u, ParseString(tail))
  {
    var s := EscapeUnit(u) + tail;
    if ShortEscape(u) != 0 {
      assert s[2..] == tail;
    } else if u < 32 || IsLead(u) || IsTrail(u) {
      assert s[0] == BACKSLASH && s[1] == 117;
      assert s[6..] == tail;
      HexRoundTrip(u);
    } else {
      PlainUnit(u, tail);
    }
  }

  lemma {:induction false} StringRoundTrip(t: Text, rest: Text)
    ensures ParseString(Escape(t) + ([QUOTE] + rest)) == Some((t, rest))
    decreases |t|
  {
    var end := [QUOTE] + rest;
    if t == [] {
      assert [] + end == end && end[1..] == rest;
    } else if |t| > 1 && IsLead(t[0]) && IsTrail(t[1]) {
      PairRoundTrip(t, rest);
    } else {
      StringRoundTrip(t[1..], rest);
      Assoc(EscapeUnit(t[0]), Escape(t[1..]), end);
      UnitRoundTrip(t[0], Escape(t[1..]) + end);
      assert t == [t[0]] + t[1..];
    }
  }

  lemma {:induction false} PairRoundTrip(t: Text, rest: Text)
    requires |t| > 1 && IsLead(t[0]) && IsTrail(t[1])
    ensures ParseString(Escape(t) + ([QUOTE] + rest)) == Some((t, rest))
    decreases |t|, 0
  {
    var tail := Escape(t[2..]) + ([QUOTE] + rest);
    StringRoundTrip(t[2..], rest);
    PlainUnit(t[1], tail);
    PlainUnit(t[0], [t[1]] + tail);
    assert t == [t[0]] + ([t[1]] + t[2..]);
    assert t[..2] == [t[0]] + [t[1]];
    Assoc(t[..2], Escape(t[2..]), [QUOTE] + rest);
    Assoc([t[0]], [t[1]], tail);
  }

  /** A run of digits ends where the text after it starts with something else. */
  lemma {:induction false} DigitRunStops(d: Text, rest: Text)
    requires forall i :: 0 <= i < |d| ==> IsDigit(d[i])
    requires rest == [] || !IsDigit(rest[0])
    ensures DigitRun(d + rest) == |d|
  {
    if d == [] {
      assert d + rest == rest;
    } else {
      DigitRunStops(d[1..], rest);
      assert (d + rest)[1..] == d[1..] + rest;
    }
  }

  lemma MagnitudeRoundTrip(m: nat, rest: Text)
    requires rest == [] || !IsDigit(rest[0])
    ensures ParseMagnitude(Digits(m) + rest) == Some((m, rest)) && IsDigit((Digits(m) + rest)[0])
  {
    var d := Digits(m);
    var s := d + rest;
    DigitRunStops(d, rest);
    DigitsRoundTrip(m);
    assert s[..|d|] == d && s[|d|..] == rest && s[0] == d[0];
  }

  lemma NumberRoundTrip(n: int, rest: Text)
    requires rest == [] || !IsDigit(rest[0])
    ensures ParseNumber(Decimal(n) + rest) == Some((Num(n), rest))
  {
    if n < 0 {
      MagnitudeRoundTrip(-n, rest);
      Assoc([45], Digits(-n), rest);
      assert ([45] + (Digits(-n) + rest))[1..] == Digits(-n) + rest;
    } else {
      MagnitudeRoundTrip(n, rest);
    }
  }

  /** No text of a value starts with white space or closes a bracket. */
  lemma PrintStarts(v: Json)
    requires Defined(v)
    ensures var p := Print(v); p != [] && p[0] > 32 && p[0] != 93 && p[0] != 125
  {
    match v
    case Num(n) => assert IsDigit(Digits(if n < 0 then -n else n)[0]);
    case _ =>
  }

  lemma WordRoundTrip(word: Text, v: Json, rest: Text)
    requires word != []
    ensures ParseWord(word + rest, word, v) == Some((v, rest))
  {
    assert (word + rest)[|word|..] == rest;
  }

  lemma ScalarRoundTrip(v: Json, rest: Text)
    requires v.Null? || v.Bool?
    ensures ParseValue(Print(v) + rest) == Some((v, rest))
  {
    var s := Print(v) + rest;
    WordRoundTrip(Print(v), v, rest);
    assert s[0] == Print(v)[0];
    assert SkipBlank(s) == s;
  }

  lemma NumRoundTrip(n: int, rest: Text)
    requires rest == [] || !IsDigit(rest[0])
    ensures ParseValue(Decimal(n) + rest) == Some((Num(n), rest))
  {
    var s := Decimal(n) + rest;
    assert IsDigit(Digits(if n < 0 then -n else n)[0]);
    assert s[0] == 45 || IsDigit(s[0]);
    assert SkipBlank(s) == s;
    NumberRoundTrip(n, rest);
  }

  lemma StrRoundTrip(t: Text, rest: Text)
    ensures ParseValue(Quote(t) + rest) == Some((Str(t), rest))
  {
    var s := Quote(t) + rest;
    assert s[0] == QUOTE && SkipBlank(s) == s;
    assert s[1..] == Escape(t) + ([QUOTE] + rest);
    StringRoundTrip(t, rest);
  }

  lemma {:induction false} ValueRoundTrip(v: Json, rest: Text)
    requires Defined(v) && WellFormed(v)
    requires rest == [] || !IsDigit(rest[0])
    ensures ParseValue(Print(v) + rest) == Some((v, rest))
    decreases v, 0
  {
    match v
    case Arr(items) => ArrRoundTrip(items, rest);
    case Obj(fs) => ObjRoundTrip(fs, rest);
    case Num(n) => NumRoundTrip(n, rest);
    case Str(t) => StrRoundTrip(t, rest);
    case _ => ScalarRoundTrip(v, rest);
  }

  lemma {:induction false} ArrRoundTrip(items: seq<Json>, rest: Text)
    requires forall i :: 0 <= i < |items| ==> Defined(items[i]) && WellFormed(items[i])
    ensures ParseValue(Print(Arr(items)) + rest) == Some((Arr(items), rest))
    decreases items, 2
  {
    var body := PrintItems(items) + [93] + rest;
    var s := Print(Arr(items)) + rest;
    assert s == [91] + body && s[1..] == body && SkipBlank(s) == s;
    if items == [] {
      assert body == [93] + rest && body[1..] == rest;
    } else {
      PrintStarts(items[0]);
      assert body[0] == Print(items[0])[0];
      assert SkipBlank(body) == body;
      ItemsRoundTrip(items, rest);
    }
  }

  lemma PrintFieldsStarts(fs: seq<Field>)
    requires fs != []
    ensures PrintFields(fs) != [] && PrintFields(fs)[0] == QUOTE
  {
    assert PrintField(fs[0])[0] == QUOTE;
  }

  lemma BracedFields(body: Text, fs: seq<Field>, rest: Text)
    requires body != [] && body[0] == QUOTE && ParseFields(body, []) == Some((fs, rest))
    ensures ParseValue([123] + body) == Some((Obj(fs), rest))
  {
    var s := [123] + body;
    assert s[1..] == body && SkipBlank(s) == s && SkipBlank(body) == body;
  }

  lemma {:induction false} ObjRoundTrip(fs: seq<Field>, rest: Text)
    requires DistinctKeys(fs) && forall i :: 0 <= i < |fs| ==> Defined(fs[i].1) && WellFormed(fs[i].1)
    ensures ParseValue(Print(Obj(fs)) + rest) == Some((Obj(fs), rest))
    decreases fs, 3
  {
    var body := PrintFields(fs) + [125] + rest;
    assert Print(Obj(fs)) + rest == [123] + body;
    if fs == [] {
      assert body == [125] + rest && body[1..] == rest;
      assert ([123] + body)[1..] == body;
    } else {
      PrintFieldsStarts(fs);
      assert body[0] == QUOTE;
      assert [] + fs == fs;
      FieldsRoundTrip(fs, [], rest);
      BracedFields(body, fs, rest);
    }
  }

  lemma Regroup(a: Text, b: Text, c: Text, d: Text, e: Text)
    ensures a + b + c + d + e == a + (b + (c + d + e))
  {
  }

  lemma LastItem(s: Text, v: Json, rest: Text)
    requires ParseValue(s) == Some((v, [93] + rest))
    ensures ParseItems(s) == Some(([v], rest))
  {
    var after := [93] + rest;
    assert after[1..] == rest && SkipBlank(after) == after;
  }

  lemma NotLastItem(s: Text, v: Json, more: Text)
    requires ParseValue(s) == Some((v, [COMMA] + more)) && ParseItems(more).Some?
    ensures ParseItems(s) == Some(([v] + ParseItems(more).value.0, ParseItems(more).value.1))
  {
    var after := [COMMA] + more;
    assert after[1..] == more && SkipBlank(after) == after;
  }

  lemma {:induction false} ItemsRoundTrip(items: seq<Json>, rest: Text)
    requires items != [] && forall i :: 0 <= i < |items| ==> Defined(items[i]) && WellFormed(items[i])
    ensures ParseItems(PrintItems(items) + [93] + rest) == Some((items, rest))
    decreases items, 1
  {
    var s := PrintItems(items) + [93] + rest;
    if |items| == 1 {
      Assoc(Print(items[0]), [93], rest);
      ValueRoundTrip(items[0], [93] + rest);
      LastItem(s, items[0], rest);
      assert items == [items[0]];
    } else {
      var more := PrintItems(items[1..]) + [93] + rest;
      Regroup(Print(items[0]), [COMMA], PrintItems(items[1..]), [93], rest);
      ValueRoundTrip(items[0], [COMMA] + more);
      ItemsRoundTrip(items[1..], rest);
      NotLastItem(s, items[0], more);
      assert items == [items[0]] + items[1..];
    }
  }

  /** `s` starts with the text of one field, and `after` is what follows it. */
  predicate ReadsField(s: Text, f: Field, after: Text)
  {
    s != [] && s[0] == QUOTE &&
    var key := ParseString(s[1..]);
    key.Some? && key.value.0 == f.0 && key.value.1 != [] && key.value.1[0] == COLON &&
    ParseValue(key.value.1[1..]) == Some((f.1, after))
  }

  lemma FieldText(f: Field, after: Text)
    ensures var s := PrintField(f) + after;
      s[0] == QUOTE && s[1..] == Escape(f.0) + ([QUOTE] + ([COLON] + (Print(f.1) + after)))
  {
  }

  lemma {:induction false} FieldRoundTrip(f: Field, after: Text)
    requires Defined(f.1) && WellFormed(f.1)
    requires after != [] && !IsDigit(after[0])
    ensures ReadsField(PrintField(f) + after, f, after)
    decreases f, 1
  {
    var value := Print(f.1) + after;
    var colon := [COLON] + value;
    FieldText(f, after);
    StringRoundTrip(f.0, colon);
    assert colon[1..] == value;
    ValueRoundTrip(f.1, after);
  }

  lemma LastField(s: Text, f: Field, rest: Text, read: seq<Field>)
    requires ReadsField(s, f, [125] + rest)
    ensures ParseFields(s, read) == Some((SetField(read, f.0, f.1), rest))
  {
    var after := [125] + rest;
    assert after[1..] == rest && SkipBlank(after) == after;
  }

  lemma NotLastField(s: Text, f: Field, more: Text, read: seq<Field>)
    requires ReadsField(s, f, [COMMA] + more) && more != [] && more[0] == QUOTE
    ensures ParseFields(s, read) == ParseFields(more, SetField(read, f.0, f.1))
  {
    var after := [COMMA] + more;
    assert after[1..] == more && SkipBlank(after) == after && SkipBlank(more) == more;
  }

  lemma SetNewField(read: seq<Field>, fs: seq<Field>)
    requires fs != [] && DistinctKeys(read + fs)
    ensures SetField(read, fs[0].0, fs[0].1) == read + [fs[0]]
    ensures read + [fs[0]] + fs[1..] == read + fs
  {
    assert (read + fs)[|read|] == fs[0];
    forall i | 0 <= i < |read| ensures read[i].0 != fs[0].0 {
      assert (read + fs)[i] == read[i];
    }
  }

  lemma {:induction false} FieldsRoundTrip(fs: seq<Field>, read: seq<Field>, rest: Text)
    requires fs != [] && DistinctKeys(read + fs)
    requires forall i :: 0 <= i < |fs| ==> Defined(fs[i].1) && WellFormed(fs[i].1)
    ensures ParseFields(PrintFields(fs) + [125] + rest, read) == Some((read + fs, rest))
    decreases fs, 2
  {
    var s := PrintFields(fs) + [125] + rest;
    SetNewField(read, fs);
    if |fs| == 1 {
      Assoc(PrintField(fs[0]), [125], rest);
      FieldRoundTrip(fs[0], [125] + rest);
      LastField(s, fs[0], rest, read);
      assert fs == [fs[0]];
    } else {
      var more := PrintFields(fs[1..]) + [125] + rest;
      var tail := [COMMA] + more;
      Regroup(PrintField(fs[0]), [COMMA], PrintFields(fs[1..]), [125], rest);
      assert more[0] == QUOTE by { PrintFieldsStarts(fs[1..]); }
      FieldRoundTrip(fs[0], tail);
      NotLastField(s, fs[0], more, read);
      FieldsRoundTrip(fs[1..], read + [fs[0]], rest);
    }
  }

  /** `JSON.parse` reads back every defined value from its text. */
  lemma ParseReadsBack(v: Json)
    requires Defined(v) && WellFormed(v)
    ensures Parse(Print(v)) == Some(v)
  {
    ValueRoundTrip(v, []);
    assert Print(v) + [] == Print(v);
  }

  // ---- what the parser builds ----

  lemma SetFieldKeepsDistinct(fs: seq<Field>, k: Text, v: Json)
    requires WellFormed(Obj(fs)) && WellFormed(v)
    ensures WellFormed(Obj(SetField(fs, k, v)))
  {
  }

  /** No value the parser builds has a key twice. */
  lemma {:induction false} ParsedIsWellFormed(s: Text)
    requires ParseValue(s).Some?
    ensures WellFormed(ParseValue(s).value.0)
    decreases |s|, 0
  {
    var t := SkipBlank(s);
    if t[0] == 91 {
      var u := SkipBlank(t[1..]);
      if ParseItems(u).Some? {
        ParsedItemsAreWellFormed(u);
      }
    } else if t[0] == 123 {
      var u := SkipBlank(t[1..]);
      if ParseFields(u, []).Some? {
        ParsedFieldsAreWellFormed(u, []);
      }
    }
  }

  lemma {:induction false} ParsedItemsAreWellFormed(s: Text)
    requires ParseItems(s).Some?
    ensures WellFormed(Arr(ParseItems(s).value.0))
    decreases |s|, 1
  {
    ParsedIsWellFormed(s);
    var t := SkipBlank(ParseValue(s).value.1);
    if t[0] == COMMA {
      ParsedItemsAreWellFormed(t[1..]);
    }
  }

  lemma {:induction false} ParsedFieldsAreWellFormed(s: Text, read: seq<Field>)
    requires WellFormed(Obj(read)) && ParseFields(s, read).Some?
    ensures WellFormed(Obj(ParseFields(s, read).value.0))
    decreases |s|, 1
  {
    var key := ParseString(s[1..]).value;
    var t := SkipBlank(key.1);
    ParsedIsWellFormed(t[1..]);
    var v := ParseValue(t[1..]).value;
    SetFieldKeepsDistinct(read, key.0, v.0);
    var u := SkipBlank(v.1);
    if u[0] == COMMA {
      ParsedFieldsAreWellFormed(SkipBlank(u[1..]), SetField(read, key.0, v.0));
    }
  }
}
