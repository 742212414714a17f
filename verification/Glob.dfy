/**
 Bypass patterns. A glob is translated to the text of a regular expression; that text is read
 back here as the runtime reads it, and its language compared with the glob's own meaning.
 */
module Glob {
  import opened Wrappers
  import opened Text

  const STAR: CodeUnit := 42
  const QUESTION: CodeUnit := 63
  const DOT: CodeUnit := 46
  const CARET: CodeUnit := 94
  const DOLLAR: CodeUnit := 36

  // ---- the translation ----

  /** The characters that mean something in a regular expression, other than the two wildcards. */
  predicate IsMeta(u: CodeUnit)
  {
    u in [46, 43, 94, 36, 123, 125, 40, 41, 124, 92, 91, 93]
  }

  function Translate(u: CodeUnit): Text
  {
    if u == STAR then [DOT, STAR] else if u == QUESTION then [DOT] else if IsMeta(u) then [BACKSLASH, u] else [u]
  }

  function TranslateAll(pattern: Text): Text
  {
    if pattern == [] then [] else Translate(pattern[0]) + TranslateAll(pattern[1..])
  }

  function RegexText(pattern: Text): Text { [CARET] + (TranslateAll(pattern) + [DOLLAR]) }

  lemma {:induction false} TranslateOneMore(p: Text, u: CodeUnit)
    ensures TranslateAll(p + [u]) == TranslateAll(p) + Translate(u)
  {
    if p == [] {
      assert [] + [u] == [u] && [u][1..] == [];
    } else {
      assert (p + [u])[1..] == p[1..] + [u];
      TranslateOneMore(p[1..], u);
    }
  }

  method GlobToRegex(pattern: Text) returns (out: Text)
    ensures out == RegexText(pattern)
  {
    out := [CARET];
    for i := 0 to |pattern|
      invariant out == [CARET] + TranslateAll(pattern[..i])
    {
      var ch := pattern[i];
      TranslateOneMore(pattern[..i], ch);
      assert pattern[..i + 1] == pattern[..i] + [ch];
      if ch == STAR {
        out := out + [DOT, STAR];
      } else if ch == QUESTION {
        out := out + [DOT];
      } else if IsMeta(ch) {
        out := out + [BACKSLASH, ch];
      } else {
        out := out + [ch];
      }
    }
    assert pattern[..|pattern|] == pattern;
    out := out + [DOLLAR];
  }

  // ---- regular expressions, as their text is read ----

  datatype Atom = AnyUnit | Literal(unit: CodeUnit)

  datatype Node = Start | End | One(atom: Atom) | Many(atom: Atom)

  /** The next atom and the text after it; other syntax (groups, classes, choices) is not read. */
  function ReadAtom(s: Text): (r: Option<(Atom, Text)>)
    requires s != []
    ensures r.Some? ==> |r.value.1| < |s|
  {
    if s[0] == DOT then Some((AnyUnit, s[1..]))
    else if s[0] == BACKSLASH then if |s| > 1 && IsMeta(s[1]) then Some((Literal(s[1]), s[2..])) else None
    else if IsMeta(s[0]) || s[0] == STAR || s[0] == QUESTION then None
    else Some((Literal(s[0]), s[1..]))
  }

  function ReadRegex(s: Text): Option<seq<Node>>
    decreases |s|
  {
    if s == [] then Some([])
    else if s[0] == CARET then Then(Start, ReadRegex(s[1..]))
    else if s[0] == DOLLAR then Then(End, ReadRegex(s[1..]))
    else
      match ReadAtom(s)
      case None => None
      case Some((atom, rest)) =>
        if rest != [] && rest[0] == STAR then Then(Many(atom), ReadRegex(rest[1..]))
        else Then(One(atom), ReadRegex(rest))
  }

  function Then(n: Node, tail: Option<seq<Node>>): Option<seq<Node>>
  {
    match tail case Some(ns) => Some([n] + ns) case None => None
  }

  predicate IsLineEnd(u: CodeUnit) { u == 10 || u == 13 || u == 0x2028 || u == 0x2029 }

  predicate SameLetter(a: CodeUnit, b: CodeUnit) { LowerUnit(a) == LowerUnit(b) }

  predicate AtomMatches(a: Atom, u: CodeUnit)
  {
    match a case AnyUnit => !IsLineEnd(u) case Literal(c) => SameLetter(c, u)
  }

  /** The nodes match a stretch of `s` that begins at `i`. */
  predicate MatchesFrom(ns: seq<Node>, s: Text, i: nat)
    requires i <= |s|
    decreases |ns|, |s| - i
  {
    if ns == [] then true
    else
      match ns[0]
      case Start => i == 0 && MatchesFrom(ns[1..], s, i)
      case End => i == |s| && MatchesFrom(ns[1..], s, i)
      case One(a) => i < |s| && AtomMatches(a, s[i]) && MatchesFrom(ns[1..], s, i + 1)
      case Many(a) => MatchesFrom(ns[1..], s, i) || (i < |s| && AtomMatches(a, s[i]) && MatchesFrom(ns, s, i + 1))
  }

  /** `new RegExp(text, "i").test(s)`. */
  predicate Test(text: Text, s: Text)
  {
    match ReadRegex(text)
    case Some(ns) => exists i :: 0 <= i <= |s| && MatchesFrom(ns, s, i)
    case None => false
  }

  // ---- globs ----

  /** A star is any run, a question mark any one character, everything else itself in either case. */
  predicate GlobMatches(pattern: Text, s: Text)
    decreases |pattern|
  {
    if pattern == [] then s == []
    else if pattern[0] == STAR then exists k :: 0 <= k <= |s| && GlobMatches(pattern[1..], s[k..])
    else s != [] && (pattern[0] == QUESTION || SameLetter(pattern[0], s[0])) && GlobMatches(pattern[1..], s[1..])
  }

  function NodeOf(u: CodeUnit): Node
  {
    if u == STAR then Many(AnyUnit) else if u == QUESTION then One(AnyUnit) else One(Literal(u))
  }

  function NodesOf(pattern: Text): seq<Node>
  {
    if pattern == [] then [End] else [NodeOf(pattern[0])] + NodesOf(pattern[1..])
  }

  lemma {:induction false} TranslationReads(pattern: Text)
    ensures var t := TranslateAll(pattern) + [DOLLAR];
      t != [] && t[0] != STAR && ReadRegex(t) == Some(NodesOf(pattern))
  {
    var t := TranslateAll(pattern) + [DOLLAR];
    if pattern == [] {
      assert t == [DOLLAR] && t[1..] == [];
      assert [End] + [] == [End];
    } else {
      TranslationReads(pattern[1..]);
      var tail := TranslateAll(pattern[1..]) + [DOLLAR];
      Assoc(Translate(pattern[0]), TranslateAll(pattern[1..]), [DOLLAR]);
      HeadReads(pattern[0], tail, NodesOf(pattern[1..]));
    }
  }

  lemma HeadReads(u: CodeUnit, tail: Text, ns: seq<Node>)
    requires tail != [] && tail[0] != STAR && ReadRegex(tail) == Some(ns)
    ensures var t := Translate(u) + tail; t[0] != STAR && ReadRegex(t) == Some([NodeOf(u)] + ns)
  {
    var t := Translate(u) + tail;
    if u == STAR {
      assert t[1..] == [STAR] + tail && t[1..][1..] == tail;
    } else if u != QUESTION && IsMeta(u) {
      assert t[2..] == tail;
    } else {
      assert t[1..] == tail;
    }
  }

  lemma {:induction false} NodesMatchGlob(pattern: Text, s: Text, i: nat)
    requires i <= |s| && forall j :: 0 <= j < |s| ==> !IsLineEnd(s[j])
    ensures MatchesFrom(NodesOf(pattern), s, i) <==> GlobMatches(pattern, s[i..])
    decreases |pattern|
  {
    var ns, r := NodesOf(pattern), s[i..];
    if pattern == [] {
      assert ns[1..] == [];
    } else {
      assert ns[1..] == NodesOf(pattern[1..]);
      if pattern[0] == STAR {
        forall m | 0 <= m <= |s| ensures MatchesFrom(NodesOf(pattern[1..]), s, m) <==> GlobMatches(pattern[1..], s[m..]) {
          NodesMatchGlob(pattern[1..], s, m);
        }
        RunMatches(pattern, s, i);
        SkipsMatch(pattern, s, i);
        assert MatchesLater(NodesOf(pattern[1..]), s, i) <==> GlobMatchesLater(pattern[1..], s, i);
      } else if i < |s| {
        NodesMatchGlob(pattern[1..], s, i + 1);
        assert r[1..] == s[i + 1..] && r[0] == s[i];
      }
    }
  }

  predicate MatchesLater(ns: seq<Node>, s: Text, i: nat)
  {
    exists m :: i <= m <= |s| && MatchesFrom(ns, s, m)
  }

  predicate GlobMatchesLater(pattern: Text, s: Text, i: nat)
  {
    exists m :: i <= m <= |s| && GlobMatches(pattern, s[m..])
  }

  /** A star matches from `i` exactly when the rest matches from some later place. */
  lemma SkipsMatch(pattern: Text, s: Text, i: nat)
    requires i <= |s| && pattern != [] && pattern[0] == STAR
    ensures GlobMatches(pattern, s[i..]) <==> GlobMatchesLater(pattern[1..], s, i)
  {
    var r := s[i..];
    if GlobMatches(pattern, r) {
      var k :| 0 <= k <= |r| && GlobMatches(pattern[1..], r[k..]);
      assert r[k..] == s[i + k..];
    }
    if GlobMatchesLater(pattern[1..], s, i) {
      var m :| i <= m <= |s| && GlobMatches(pattern[1..], s[m..]);
      assert s[m..] == r[m - i..];
    }
  }

  /** On text without line ends a starred dot skips any run. */
  lemma {:induction false} RunMatches(pattern: Text, s: Text, i: nat)
    requires pattern != [] && pattern[0] == STAR
    requires i <= |s| && forall j :: 0 <= j < |s| ==> !IsLineEnd(s[j])
    ensures MatchesFrom(NodesOf(pattern), s, i) <==> MatchesLater(NodesOf(pattern[1..]), s, i)
    decreases |s| - i
  {
    var ns, rest := NodesOf(pattern), NodesOf(pattern[1..]);
    assert ns[0] == Many(AnyUnit) && ns[1..] == rest;
    if i < |s| {
      assert AtomMatches(AnyUnit, s[i]);
      RunMatches(pattern, s, i + 1);
      assert MatchesFrom(ns, s, i) <==> MatchesFrom(rest, s, i) || MatchesFrom(ns, s, i + 1);
      if MatchesLater(rest, s, i) {
        var m :| i <= m <= |s| && MatchesFrom(rest, s, m);
        assert m == i || MatchesLater(rest, s, i + 1);
      }
    } else {
      assert MatchesFrom(ns, s, i) <==> MatchesFrom(rest, s, i);
    }
  }

  /** For every pattern the compiled expression accepts exactly the logins the glob does. */
  lemma GlobIsExact(pattern: Text, s: Text)
    requires forall j :: 0 <= j < |s| ==> !IsLineEnd(s[j])
    ensures Test(RegexText(pattern), s) <==> GlobMatches(pattern, s)
  {
    var body := TranslateAll(pattern) + [DOLLAR];
    TranslationReads(pattern);
    var text := RegexText(pattern);
    assert text[1..] == body;
    var ns := [Start] + NodesOf(pattern);
    assert ReadRegex(text) == Some(ns);
    assert ns[1..] == NodesOf(pattern);
    NodesMatchGlob(pattern, s, 0);
    assert s[0..] == s;
    assert MatchesFrom(ns, s, 0) <==> GlobMatches(pattern, s);
  }

  // ---- the bypass list ----

  predicate HasWildcard(p: Text) { STAR in p || QUESTION in p }

  predicate PatternMatches(pattern: Text, target: Text)
  {
    var pat := Trim(Lower(pattern));
    pat != [] && (pat == target || (HasWildcard(pat) && Test(RegexText(pat), target)))
  }

  predicate MatchesAnyPattern(login: Text, patterns: seq<Text>)
  {
    exists i :: 0 <= i < |patterns| && PatternMatches(patterns[i], Lower(login))
  }

  lemma {:induction false} GlobMatchesItself(p: Text)
    ensures GlobMatches(p, p)
  {
    if p != [] {
      GlobMatchesItself(p[1..]);
      if p[0] == STAR {
        assert p[1..] == p[1..][0..];
      }
    }
  }

  lemma {:induction false} PlainGlobIsEquality(p: Text, s: Text)
    requires !HasWildcard(p) && GlobMatches(p, s) && Lower(p) == p && Lower(s) == s
    ensures p == s
  {
    if p != [] {
      assert p[0] == Lower(p)[0] && s[0] == Lower(s)[0];
      assert Lower(p[1..]) == p[1..] by {
        forall i | 0 <= i < |p[1..]| ensures Lower(p[1..])[i] == p[1..][i] { assert Lower(p)[i + 1] == p[i + 1]; }
      }
      assert Lower(s[1..]) == s[1..] by {
        forall i | 0 <= i < |s[1..]| ensures Lower(s[1..])[i] == s[1..][i] { assert Lower(s)[i + 1] == s[i + 1]; }
      }
      PlainGlobIsEquality(p[1..], s[1..]);
      assert p == [p[0]] + p[1..] && s == [s[0]] + s[1..];
    }
  }

  lemma {:induction false} TrimKeepsLower(p: Text)
    requires Lower(p) == p
    ensures Lower(Trim(p)) == Trim(p)
  {
    TrimIsPart(p);
    var a, b :| 0 <= a <= b <= |p| && Trim(p) == p[a..b];
    forall i | 0 <= i < |Trim(p)| ensures Lower(Trim(p))[i] == Trim(p)[i] {
      assert Lower(p)[a + i] == p[a + i];
    }
  }

  lemma {:induction false} TrimStartIsPart(p: Text)
    ensures exists a :: 0 <= a <= |p| && TrimStart(p) == p[a..]
  {
    if p != [] && IsBlank(p[0]) {
      TrimStartIsPart(p[1..]);
      var a :| 0 <= a <= |p[1..]| && TrimStart(p[1..]) == p[1..][a..];
      assert p[1..][a..] == p[a + 1..];
    } else {
      assert p == p[0..];
    }
  }

  lemma {:induction false} TrimEndIsPart(p: Text)
    ensures exists b :: 0 <= b <= |p| && TrimEnd(p) == p[..b]
    decreases |p|
  {
    if p != [] && IsBlank(p[|p| - 1]) {
      TrimEndIsPart(p[..|p| - 1]);
      var b :| 0 <= b <= |p[..|p| - 1]| && TrimEnd(p[..|p| - 1]) == p[..|p| - 1][..b];
      assert p[..|p| - 1][..b] == p[..b];
    } else {
      assert p == p[..|p|];
    }
  }

  lemma TrimIsPart(p: Text)
    ensures exists a, b :: 0 <= a <= b <= |p| && Trim(p) == p[a..b]
  {
    TrimStartIsPart(p);
    var a :| 0 <= a <= |p| && TrimStart(p) == p[a..];
    TrimEndIsPart(p[a..]);
    var b :| 0 <= b <= |p[a..]| && TrimEnd(p[a..]) == p[a..][..b];
    assert p[a..][..b] == p[a..a + b];
  }

  /** A login is on the list exactly when some non-blank pattern's glob matches it, in either case. */
  lemma BypassIsGlobMatch(login: Text, patterns: seq<Text>)
    requires forall j :: 0 <= j < |login| ==> !IsLineEnd(login[j])
    ensures MatchesAnyPattern(login, patterns) <==>
      exists i :: 0 <= i < |patterns| && Trim(Lower(patterns[i])) != [] && GlobMatches(Trim(Lower(patterns[i])), Lower(login))
  {
    forall i | 0 <= i < |patterns|
      ensures PatternMatches(patterns[i], Lower(login)) <==>
        Trim(Lower(patterns[i])) != [] && GlobMatches(Trim(Lower(patterns[i])), Lower(login))
    {
      var pat := Trim(Lower(patterns[i]));
      LowerIsIdempotent(patterns[i]);
      LowerIsIdempotent(login);
      TrimKeepsLower(Lower(patterns[i]));
      GlobMatchesItself(pat);
      GlobIsExact(pat, Lower(login));
      if !HasWildcard(pat) && GlobMatches(pat, Lower(login)) {
        PlainGlobIsEquality(pat, Lower(login));
      }
    }
  }
}
