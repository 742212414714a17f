/**
 Strings as JavaScript holds them: sequences of 16-bit code units, surrogate pairs and
 lone surrogates included. Lower-casing, trimming and decimal printing cover ASCII.
 */
module Text {
  newtype CodeUnit = u: int | 0 <= u < 0x1_0000
  type Text = seq<CodeUnit>

  const NEWLINE: CodeUnit := 10
  const SPACE: CodeUnit := 32
  const QUOTE: CodeUnit := 34
  const COMMA: CodeUnit := 44
  const COLON: CodeUnit := 58
  const BACKSLASH: CodeUnit := 92

  predicate IsLead(u: CodeUnit) { 0xD800 <= u < 0xDC00 }

  predicate IsTrail(u: CodeUnit) { 0xDC00 <= u < 0xE000 }

  predicate IsDigit(u: CodeUnit) { 48 <= u <= 57 }

  predicate NoNewline(t: Text) { NEWLINE !in t }

  lemma Assoc<T>(a: seq<T>, b: seq<T>, c: seq<T>)
    ensures a + b + c == a + (b + c)
  {
  }

  // ---- case and white space (ASCII) ----

  function LowerUnit(u: CodeUnit): CodeUnit { if 65 <= u <= 90 then u + 32 else u }

  function Lower(t: Text): (r: Text)
    ensures |r| == |t| && forall i :: 0 <= i < |t| ==> r[i] == LowerUnit(t[i])
  {
    seq(|t|, i requires 0 <= i < |t| => LowerUnit(t[i]))
  }

  lemma LowerIsIdempotent(t: Text)
    ensures Lower(Lower(t)) == Lower(t)
  {
  }

  predicate IsBlank(u: CodeUnit) { u == SPACE || 9 <= u <= 13 }

  function TrimStart(t: Text): Text
  {
    if t != [] && IsBlank(t[0]) then TrimStart(t[1..]) else t
  }

  function TrimEnd(t: Text): Text
  {
    if t != [] && IsBlank(t[|t| - 1]) then TrimEnd(t[..|t| - 1]) else t
  }

  function Trim(t: Text): Text { TrimEnd(TrimStart(t)) }

  // ---- the order JavaScript's sort gives strings: by code unit ----

  predicate Below(a: Text, b: Text)
  {
    if b == [] then false
    else if a == [] then true
    else a[0] < b[0] || (a[0] == b[0] && Below(a[1..], b[1..]))
  }

  lemma {:induction false} BelowIsIrreflexive(a: Text)
    ensures !Below(a, a)
  {
    if a != [] {
      BelowIsIrreflexive(a[1..]);
    }
  }

  lemma {:induction false} BelowIsTotal(a: Text, b: Text)
    ensures Below(a, b) || Below(b, a) || a == b
    ensures !(Below(a, b) && Below(b, a))
  {
    if a != [] && b != [] && a[0] == b[0] {
      BelowIsTotal(a[1..], b[1..]);
      assert a == [a[0]] + a[1..] && b == [b[0]] + b[1..];
    }
  }

  lemma {:induction false} BelowIsTransitive(a: Text, b: Text, c: Text)
    requires Below(a, b) && Below(b, c)
    ensures Below(a, c)
  {
    if a != [] && a[0] == b[0] == c[0] {
      BelowIsTransitive(a[1..], b[1..], c[1..]);
    }
  }

  // ---- decimal numbers ----

  function Digits(n: nat): (t: Text)
    ensures t != [] && forall i :: 0 <= i < |t| ==> IsDigit(t[i])
    ensures t[0] == 48 ==> n == 0 && |t| == 1
    ensures n == 0 ==> t == [48]
  {
    if n < 10 then [(48 + n) as CodeUnit] else Digits(n / 10) + [(48 + n % 10) as CodeUnit]
  }

  function Decimal(n: int): Text
  {
    if n < 0 then [45] + Digits(-n) else Digits(n)
  }

  function DigitsValue(t: Text): nat
    requires forall i :: 0 <= i < |t| ==> IsDigit(t[i])
  {
    if t == [] then 0
    else
      var last := t[|t| - 1] as int;
      assert IsDigit(t[|t| - 1]);
      10 * DigitsValue(t[..|t| - 1]) + (last - 48)
  }

  lemma {:induction false} DigitsRoundTrip(n: nat)
    ensures DigitsValue(Digits(n)) == n
  {
    if n >= 10 {
      DigitsRoundTrip(n / 10);
      var t := Digits(n);
      assert t[..|t| - 1] == Digits(n / 10);
    } else {
      assert Digits(n)[..0] == [];
    }
  }

  lemma DecimalIsInjective(m: int, n: int)
    requires Decimal(m) == Decimal(n)
    ensures m == n
  {
    DigitsRoundTrip(if m < 0 then -m else m);
    DigitsRoundTrip(if n < 0 then -n else n);
    if m < 0 { assert Decimal(m)[1..] == Digits(-m); assert !IsDigit(Decimal(m)[0]); }
    if n < 0 { assert Decimal(n)[1..] == Digits(-n); assert !IsDigit(Decimal(n)[0]); }
  }

  lemma DecimalHasNoNewline(n: int)
    ensures NoNewline(Decimal(n))
  {
    var d := Digits(if n < 0 then -n else n);
    assert forall i :: 0 <= i < |d| ==> IsDigit(d[i]);
  }
}
