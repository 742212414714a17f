/**
 JSON values, the text `JSON.stringify` gives them and the text `JSON.parse` reads, and the
 key-sorted text the ledger hashes. Numbers are integers. Strings are escaped as section 7
 of RFC 8259 says, control characters and lone surrogates by their hexadecimal number.
 */
module Json {
  import opened Text

  type Field = (Text, Json)

  /** An object lists its fields in the order the runtime enumerates them. */
  datatype Json =
    | Undefined
    | Null
    | Bool(flag: bool)
    | Num(number: int)
    | Str(text: Text)
    | Arr(items: seq<Json>)
    | Obj(fields: seq<Field>)

  const NULL_TEXT: Text := [110, 117, 108, 108]
  const TRUE_TEXT: Text := [116, 114, 117, 101]
  const FALSE_TEXT: Text := [102, 97, 108, 115, 101]

  // ---- objects ----

  predicate HasKey(fs: seq<Field>, k: Text)
  {
    exists i :: 0 <= i < |fs| && fs[i].0 == k
  }

  function IndexOf(fs: seq<Field>, k: Text): (i: nat)
    requires HasKey(fs, k)
    ensures i < |fs| && fs[i].0 == k
    ensures forall j :: 0 <= j < i ==> fs[j].0 != k
  {
    if fs[0].0 == k then 0
    else
      assert HasKey(fs[1..], k) by {
        var i :| 0 <= i < |fs| && fs[i].0 == k;
        assert fs[1..][i - 1].0 == k;
      }
      1 + IndexOf(fs[1..], k)
  }

  /** The value at a key, `Undefined` when the object has no such key. */
  function Lookup(fs: seq<Field>, k: Text): Json
  {
    if HasKey(fs, k) then fs[IndexOf(fs, k)].1 else Undefined
  }

  predicate DistinctKeys(fs: seq<Field>)
  {
    forall i, j :: 0 <= i < j < |fs| ==> fs[i].0 != fs[j].0
  }

  /** What every runtime object satisfies: no key twice, at any depth. */
  predicate WellFormed(v: Json)
    decreases v, 0
  {
    match v
    case Arr(items) => forall i :: 0 <= i < |items| ==> WellFormed(items[i])
    case Obj(fs) => DistinctKeys(fs) && forall i :: 0 <= i < |fs| ==> WellFormed(fs[i].1)
    case _ => true
  }

  /** A value JSON text can carry: nothing undefined inside. */
  predicate Defined(v: Json)
  {
    match v
    case Undefined => false
    case Arr(items) => forall i :: 0 <= i < |items| ==> Defined(items[i])
    case Obj(fs) => forall i :: 0 <= i < |fs| ==> Defined(fs[i].1)
    case _ => true
  }

  // ---- strings ----

  function HexDigit(d: CodeUnit): CodeUnit
    requires d < 16
  {
    if d < 10 then 48 + d else 87 + d
  }

  /** `\\u` and the four hexadecimal digits of a unit. */
  function UEscape(u: CodeUnit): Text
  {
    var q1 := u / 16;
    var q2 := q1 / 16;
    [BACKSLASH, 117, HexDigit(q2 / 16), HexDigit(q2 % 16), HexDigit(q1 % 16), HexDigit(u % 16)]
  }

  /** The letter after the backslash in a two-character escape, 0 where there is none. */
  function ShortEscape(u: CodeUnit): CodeUnit
  {
    if u == QUOTE || u == BACKSLASH then u
    else if u == 8 then 98 else if u == 9 then 116 else if u == 10 then 110
    else if u == 12 then 102 else if u == 13 then 114 else 0
  }

  function EscapeUnit(u: CodeUnit): Text
  {
    if ShortEscape(u) != 0 then [BACKSLASH, ShortEscape(u)]
    else if u < 32 || IsLead(u) || IsTrail(u) then UEscape(u)
    else [u]
  }

  function Escape(t: Text): (r: Text)
    ensures forall i :: 0 <= i < |r| ==> r[i] >= 32
  {
    if t == [] then []
    else if |t| > 1 && IsLead(t[0]) && IsTrail(t[1]) then t[..2] + Escape(t[2..])
    else EscapeUnit(t[0]) + Escape(t[1..])
  }

  function Quote(t: Text): Text { [QUOTE] + Escape(t) + [QUOTE] }

  // ---- JSON.stringify ----

  /** The text of a defined value. */
  function Print(v: Json): Text
    decreases v, 0
  {
    match v
    case Undefined => []
    case Null => NULL_TEXT
    case Bool(b) => if b then TRUE_TEXT else FALSE_TEXT
    case Num(n) => Decimal(n)
    case Str(t) => Quote(t)
    case Arr(items) => [91] + PrintItems(items) + [93]
    case Obj(fs) => [123] + PrintFields(fs) + [125]
  }

  function PrintItems(items: seq<Json>): Text
    decreases items, 1
  {
    if items == [] then []
    else if |items| == 1 then Print(items[0])
    else Print(items[0]) + [COMMA] + PrintItems(items[1..])
  }

  function PrintField(f: Field): Text
    decreases f, 1
  {
    Quote(f.0) + [COLON] + Print(f.1)
  }

  function PrintFields(fs: seq<Field>): Text
    decreases fs, 1
  {
    if fs == [] then []
    else if |fs| == 1 then PrintField(fs[0])
    else PrintField(fs[0]) + [COMMA] + PrintFields(fs[1..])
  }

  /** What `JSON.stringify` keeps: undefined fields are dropped, undefined items become null. */
  function Clean(v: Json): Json
    decreases v, 0
  {
    match v
    case Undefined => Null
    case Arr(items) => Arr(CleanItems(items))
    case Obj(fs) => Obj(CleanFields(fs))
    case _ => v
  }

  function CleanItems(items: seq<Json>): (r: seq<Json>)
    ensures |r| == |items|
    decreases items, 1
  {
    if items == [] then [] else [Clean(items[0])] + CleanItems(items[1..])
  }

  function CleanFields(fs: seq<Field>): seq<Field>
    decreases fs, 1
  {
    if fs == [] then []
    else if fs[0].1 == Undefined then CleanFields(fs[1..])
    else [CleanField(fs[0])] + CleanFields(fs[1..])
  }

  function CleanField(f: Field): Field
    decreases f, 1
  {
    (f.0, Clean(f.1))
  }

  function Stringify(v: Json): Text { Print(Clean(v)) }

  // ---- the key-sorted text ----

  function Insert(k: Text, keys: seq<Text>): seq<Text>
  {
    if keys == [] then [k]
    else if Below(keys[0], k) then [keys[0]] + Insert(k, keys[1..])
    else [k] + keys
  }

  /** The keys of an object, sorted by code unit (the order of section 3.2.3 of RFC 8785). */
  function SortedKeys(fs: seq<Field>): seq<Text>
  {
    if fs == [] then [] else Insert(fs[0].0, SortedKeys(fs[1..]))
  }

  function CanonicalJson(v: Json): Text
    decreases v, 0, 0
  {
    match v
    case Null => NULL_TEXT
    case Arr(items) => [91] + CanonicalItems(items) + [93]
    case Obj(fs) => [123] + JoinParts(CanonicalParts(fs, SortedKeys(fs))) + [125]
    case Undefined => NULL_TEXT
    case _ => Print(v)
  }

  function CanonicalItems(items: seq<Json>): Text
    decreases items, 1, 0
  {
    if items == [] then []
    else if |items| == 1 then CanonicalJson(items[0])
    else CanonicalJson(items[0]) + [COMMA] + CanonicalItems(items[1..])
  }

  function CanonicalParts(fs: seq<Field>, keys: seq<Text>): seq<Text>
    decreases fs, 1, |keys|
  {
    if keys == [] then []
    else if !HasKey(fs, keys[0]) || fs[IndexOf(fs, keys[0])].1 == Undefined then CanonicalParts(fs, keys[1..])
    else [CanonicalField(fs[IndexOf(fs, keys[0])])] + CanonicalParts(fs, keys[1..])
  }

  function CanonicalField(f: Field): Text
    decreases f, 1, 0
  {
    Quote(f.0) + [COLON] + CanonicalJson(f.1)
  }

  function JoinParts(parts: seq<Text>): Text
  {
    if parts == [] then []
    else if |parts| == 1 then parts[0]
    else parts[0] + [COMMA] + JoinParts(parts[1..])
  }
}
