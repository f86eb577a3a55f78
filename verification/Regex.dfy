/**
 Regular expressions, for the part of the JavaScript syntax that the components use.

 An expression is built from character classes, concatenation, alternatives and counted
 repetition. `Matches` is the meaning of an expression that is anchored at both ends, and
 `MatchesPrefix` that of one searched for at a given position. Backtracking, groups and
 greediness do not change whether there is a match, so they have no counterpart; that a
 scanner may take as much as it can is a theorem about a star in front of expressions
 that can wait. Ignoring case is a matter of character classes, and whether a dot
 matches a line terminator is one as well.
 */
module Regex {
  import opened Options
  import opened Sequences
  import opened Text

  datatype CharClass =
    | Exactly(c: char)
    | EitherCase(lower: char)
    | Letter
    | LetterDigit
    | LetterDigitHyphen
    | Digit
    | Space
    | NotLineTerminator

  datatype Regex =
    | Chr(cc: CharClass)
    | Cat(first: Regex, second: Regex)
    | Alt(left: Regex, right: Regex)
    | Repeat(body: Regex, min: nat, max: Option<nat>)

  predicate IsLetter(c: char) {
    'a' <= c <= 'z' || 'A' <= c <= 'Z'
  }

  predicate IsDigit(c: char) {
    '0' <= c <= '9'
  }

  /** The ASCII lower-case form of a character. */
  function Lower(c: char): char {
    if 'A' <= c <= 'Z' then (c as int + 32) as char else c
  }

  predicate InClass(cc: CharClass, c: char) {
    match cc
    case Exactly(x) => c == x
    case EitherCase(lower) => Lower(c) == lower
    case Letter => IsLetter(c)
    case LetterDigit => IsLetter(c) || IsDigit(c)
    case LetterDigitHyphen => IsLetter(c) || IsDigit(c) || c == '-'
    case Digit => IsDigit(c)
    case Space => IsSpace(c)
    case NotLineTerminator => !IsLineTerminator(c)
  }

  /** The expression matches the whole string. */
  ghost predicate Matches(r: Regex, s: string)
    decreases r, 0
  {
    match r
    case Chr(cc) => |s| == 1 && InClass(cc, s[0])
    case Cat(first, second) => exists i | 0 <= i <= |s| :: Matches(first, s[..i]) && Matches(second, s[i..])
    case Alt(left, right) => Matches(left, s) || Matches(right, s)
    case Repeat(body, min, max) => exists n: nat | min <= n && (max.Some? ==> n <= max.value) :: Times(body, n, s)
  }

  /** The string falls into n consecutive pieces that the expression matches. */
  ghost predicate Times(r: Regex, n: nat, s: string)
    decreases r, n + 1
  {
    if n == 0 then s == ""
    else exists i | 0 <= i <= |s| :: Matches(r, s[..i]) && Times(r, n - 1, s[i..])
  }

  function Opt(r: Regex): Regex {
    Repeat(r, 0, Some(1))
  }

  function Star(r: Regex): Regex {
    Repeat(r, 0, None)
  }

  function Plus(r: Regex): Regex {
    Repeat(r, 1, None)
  }

  predicate AllIn(cc: CharClass, s: string) {
    forall i :: 0 <= i < |s| ==> InClass(cc, s[i])
  }

  lemma AllInConcat(cc: CharClass, a: string, b: string)
    ensures AllIn(cc, a + b) <==> AllIn(cc, a) && AllIn(cc, b)
  {
    assert forall i :: 0 <= i < |a| ==> (a + b)[i] == a[i];
    assert forall i :: 0 <= i < |b| ==> (a + b)[|a| + i] == b[i];
  }

  lemma CatIntro(first: Regex, second: Regex, a: string, b: string)
    requires Matches(first, a) && Matches(second, b)
    ensures Matches(Cat(first, second), a + b)
  {
    assert (a + b)[..|a|] == a && (a + b)[|a|..] == b;
  }

  lemma CatElim(first: Regex, second: Regex, s: string) returns (a: string, b: string)
    requires Matches(Cat(first, second), s)
    ensures s == a + b && Matches(first, a) && Matches(second, b)
  {
    var i :| 0 <= i <= |s| && Matches(first, s[..i]) && Matches(second, s[i..]);
    a, b := s[..i], s[i..];
  }

  lemma TimesElim(r: Regex, n: nat, s: string) returns (a: string, b: string)
    requires n > 0 && Times(r, n, s)
    ensures s == a + b && Matches(r, a) && Times(r, n - 1, b)
  {
    var i :| 0 <= i <= |s| && Matches(r, s[..i]) && Times(r, n - 1, s[i..]);
    a, b := s[..i], s[i..];
  }

  lemma RepeatElim(r: Regex, min: nat, max: Option<nat>, s: string) returns (n: nat)
    requires Matches(Repeat(r, min, max), s)
    ensures min <= n && (max.Some? ==> n <= max.value) && Times(r, n, s)
  {
    n :| min <= n && (max.Some? ==> n <= max.value) && Times(r, n, s);
  }

  lemma RepeatIntro(r: Regex, min: nat, max: Option<nat>, n: nat, s: string)
    requires min <= n && (max.Some? ==> n <= max.value) && Times(r, n, s)
    ensures Matches(Repeat(r, min, max), s)
  {
  }

  lemma ChrMatches(cc: CharClass, s: string)
    ensures Matches(Chr(cc), s) <==> |s| == 1 && InClass(cc, s[0])
  {
  }

  lemma TimesIntro(r: Regex, n: nat, a: string, b: string)
    requires Matches(r, a) && Times(r, n, b)
    ensures Times(r, n + 1, a + b)
  {
    assert (a + b)[..|a|] == a && (a + b)[|a|..] == b;
  }

  lemma {:induction false} TimesIsClass(cc: CharClass, n: nat, s: string)
    requires Times(Chr(cc), n, s)
    ensures |s| == n && AllIn(cc, s)
  {
    if n > 0 {
      var a, b := TimesElim(Chr(cc), n, s);
      ChrMatches(cc, a);
      TimesIsClass(cc, n - 1, b);
      AllInConcat(cc, a, b);
    }
  }

  lemma {:induction false} ClassIsTimes(cc: CharClass, s: string)
    requires AllIn(cc, s)
    ensures Times(Chr(cc), |s|, s)
  {
    if s != "" {
      var a, b := s[..1], s[1..];
      assert a + b == s;
      AllInConcat(cc, a, b);
      ChrMatches(cc, a);
      ClassIsTimes(cc, b);
      TimesIntro(Chr(cc), |b|, a, b);
    }
  }

  lemma TimesOfClass(cc: CharClass, n: nat, s: string)
    ensures Times(Chr(cc), n, s) <==> |s| == n && AllIn(cc, s)
  {
    if Times(Chr(cc), n, s) {
      TimesIsClass(cc, n, s);
    }
    if |s| == n && AllIn(cc, s) {
      ClassIsTimes(cc, s);
    }
  }

  /** A repeated character class matches the strings over it whose length is in range. */
  lemma RepeatOfClass(cc: CharClass, min: nat, max: Option<nat>, s: string)
    ensures Matches(Repeat(Chr(cc), min, max), s)
       <==> min <= |s| && (max.Some? ==> |s| <= max.value) && AllIn(cc, s)
  {
    TimesOfClass(cc, |s|, s);
    forall n: nat | Times(Chr(cc), n, s)
      ensures n == |s|
    {
      TimesOfClass(cc, n, s);
    }
  }

  lemma OptMatches(r: Regex, s: string)
    ensures Matches(Opt(r), s) <==> s == "" || Matches(r, s)
  {
    if Matches(Opt(r), s) {
      var n: nat :| n <= 1 && Times(r, n, s);
      if n == 1 {
        var i :| 0 <= i <= |s| && Matches(r, s[..i]) && Times(r, 0, s[i..]);
        assert s[..i] == s;
      }
    }
    if s == "" {
      assert Times(r, 0, s);
    } else if Matches(r, s) {
      assert Times(r, 0, "");
      TimesIntro(r, 0, s, "");
      assert s + "" == s;
      assert Times(r, 1, s);
    }
  }

  // ---------- Fixed sequences of classes, and searching ----------

  /** Matches exactly the empty string. */
  function Empty(): Regex {
    Repeat(Chr(Digit), 0, Some(0))
  }

  /** One character after the other: literal text, and counted repetitions written out. */
  function Chain(classes: seq<CharClass>): Regex {
    if classes == [] then Empty() else Cat(Chr(classes[0]), Chain(classes[1..]))
  }

  predicate FitsChain(classes: seq<CharClass>, s: string) {
    |s| == |classes| && forall i :: 0 <= i < |s| ==> InClass(classes[i], s[i])
  }

  lemma {:induction false} ChainMatches(classes: seq<CharClass>, s: string)
    ensures Matches(Chain(classes), s) <==> FitsChain(classes, s)
  {
    if classes == [] {
      RepeatOfClass(Digit, 0, Some(0), s);
    } else {
      if Matches(Chain(classes), s) {
        var a, b := CatElim(Chr(classes[0]), Chain(classes[1..]), s);
        ChrMatches(classes[0], a);
        ChainMatches(classes[1..], b);
        assert forall i :: 1 <= i < |s| ==> s[i] == b[i - 1];
      }
      if FitsChain(classes, s) {
        ChrMatches(classes[0], s[..1]);
        ChainMatches(classes[1..], s[1..]);
        CatIntro(Chr(classes[0]), Chain(classes[1..]), s[..1], s[1..]);
        assert s[..1] + s[1..] == s;
      }
    }
  }

  /** Some prefix of the string matches: what `test` looks for at one position. */
  ghost predicate MatchesPrefix(r: Regex, s: string) {
    exists j | 0 <= j <= |s| :: Matches(r, s[..j])
  }

  lemma PrefixIntro(r: Regex, a: string, b: string)
    requires Matches(r, a)
    ensures MatchesPrefix(r, a + b)
  {
    assert (a + b)[..|a|] == a;
  }

  lemma CatPrefixElim(first: Regex, second: Regex, s: string) returns (a: string, b: string)
    requires MatchesPrefix(Cat(first, second), s)
    ensures s == a + b && Matches(first, a) && MatchesPrefix(second, b)
  {
    var j :| 0 <= j <= |s| && Matches(Cat(first, second), s[..j]);
    var c: string;
    a, c := CatElim(first, second, s[..j]);
    b := c + s[j..];
    ConcatAssoc(a, c, s[j..]);
    assert s[..j] + s[j..] == s;
    PrefixIntro(second, c, s[j..]);
  }

  lemma CatPrefixIntro(first: Regex, second: Regex, a: string, b: string)
    requires Matches(first, a) && MatchesPrefix(second, b)
    ensures MatchesPrefix(Cat(first, second), a + b)
  {
    var j :| 0 <= j <= |b| && Matches(second, b[..j]);
    CatIntro(first, second, a, b[..j]);
    assert (a + b)[..|a| + j] == a + b[..j];
  }

  function Skip(cc: CharClass, s: string): string {
    if s != "" && InClass(cc, s[0]) then Skip(cc, s[1..]) else s
  }

  lemma {:induction false} SkipSpec(cc: CharClass, s: string) returns (skipped: string)
    ensures s == skipped + Skip(cc, s) && AllIn(cc, skipped)
  {
    if s != "" && InClass(cc, s[0]) {
      var rest := SkipSpec(cc, s[1..]);
      skipped := [s[0]] + rest;
      AllInConcat(cc, [s[0]], rest);
      assert s == [s[0]] + s[1..] == [s[0]] + (rest + Skip(cc, s[1..]));
    } else {
      skipped := "";
      assert "" + s == s;
    }
  }

  lemma {:induction false} SkipOver(cc: CharClass, a: string, b: string)
    requires AllIn(cc, a)
    ensures Skip(cc, a + b) == Skip(cc, b)
  {
    if a == "" {
      assert a + b == b;
    } else {
      assert (a + b)[1..] == a[1..] + b;
      SkipOver(cc, a[1..], b);
    }
  }

  /** The rest of the expression can wait until all characters of the class are skipped. */
  ghost predicate Patient(cc: CharClass, r: Regex) {
    forall s :: MatchesPrefix(r, s) ==> MatchesPrefix(r, Skip(cc, s))
  }

  /** A star before a patient rest may greedily take everything. */
  lemma StarIsGreedy(cc: CharClass, r: Regex, s: string)
    requires Patient(cc, r)
    ensures MatchesPrefix(Cat(Star(Chr(cc)), r), s) <==> MatchesPrefix(r, Skip(cc, s))
  {
    if MatchesPrefix(Cat(Star(Chr(cc)), r), s) {
      var a, b := CatPrefixElim(Star(Chr(cc)), r, s);
      RepeatOfClass(cc, 0, None, a);
      SkipOver(cc, a, b);
    }
    if MatchesPrefix(r, Skip(cc, s)) {
      var a := SkipSpec(cc, s);
      RepeatOfClass(cc, 0, None, a);
      CatPrefixIntro(Star(Chr(cc)), r, a, Skip(cc, s));
    }
  }

  lemma OptPrefix(cc: CharClass, r: Regex, s: string)
    ensures MatchesPrefix(Cat(Opt(Chr(cc)), r), s) <==>
            MatchesPrefix(r, s) || (s != "" && InClass(cc, s[0]) && MatchesPrefix(r, s[1..]))
  {
    if MatchesPrefix(Cat(Opt(Chr(cc)), r), s) {
      var a, b := CatPrefixElim(Opt(Chr(cc)), r, s);
      OptMatches(Chr(cc), a);
      if a == "" {
        assert b == s;
      } else {
        ChrMatches(cc, a);
        assert b == s[1..];
      }
    }
    if MatchesPrefix(r, s) {
      OptMatches(Chr(cc), "");
      CatPrefixIntro(Opt(Chr(cc)), r, "", s);
      assert "" + s == s;
    }
    if s != "" && InClass(cc, s[0]) && MatchesPrefix(r, s[1..]) {
      ChrMatches(cc, s[..1]);
      OptMatches(Chr(cc), s[..1]);
      CatPrefixIntro(Opt(Chr(cc)), r, s[..1], s[1..]);
      assert s[..1] + s[1..] == s;
    }
  }

  lemma ChainPrefix(classes: seq<CharClass>, s: string)
    ensures MatchesPrefix(Chain(classes), s) <==> |classes| <= |s| && FitsChain(classes, s[..|classes|])
  {
    forall j | 0 <= j <= |s|
      ensures Matches(Chain(classes), s[..j]) <==> FitsChain(classes, s[..j])
    {
      ChainMatches(classes, s[..j]);
    }
  }

  lemma ChainCatPrefix(classes: seq<CharClass>, r: Regex, s: string)
    ensures MatchesPrefix(Cat(Chain(classes), r), s) <==>
            |classes| <= |s| && FitsChain(classes, s[..|classes|]) && MatchesPrefix(r, s[|classes|..])
  {
    if MatchesPrefix(Cat(Chain(classes), r), s) {
      var a, b := CatPrefixElim(Chain(classes), r, s);
      ChainMatches(classes, a);
      assert s[..|classes|] == a && s[|classes|..] == b;
    }
    if |classes| <= |s| && FitsChain(classes, s[..|classes|]) && MatchesPrefix(r, s[|classes|..]) {
      ChainMatches(classes, s[..|classes|]);
      CatPrefixIntro(Chain(classes), r, s[..|classes|], s[|classes|..]);
      assert s[..|classes|] + s[|classes|..] == s;
    }
  }
}
