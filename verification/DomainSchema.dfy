/** The schema that accepts a sending domain (apps/api/src/types.ts): trim, check the length, match a regular
    expression, lower-case the result. */
module DomainSchema {
  import opened Options
  import opened Text
  import opened Regex
  import opened Sequences

  /** The expression of the schema, from the inside out. */
  function LabelTail(): Regex {
    Cat(Repeat(Chr(LetterDigitHyphen), 0, Some(61)), Chr(LetterDigit))
  }

  function Label(): Regex {
    Cat(Chr(LetterDigit), Opt(LabelTail()))
  }

  function DottedLabel(): Regex {
    Cat(Label(), Chr(Exactly('.')))
  }

  function DomainRe(): Regex {
    Cat(Plus(DottedLabel()), Repeat(Chr(Letter), 2, None))
  }

  const MAX_LENGTH := 253

  /** `toLowerCase` on the letters that an accepted domain can have. */
  function ToLower(s: string): (r: string)
    ensures |r| == |s| && forall i :: 0 <= i < |s| ==> r[i] == Lower(s[i])
  {
    if s == "" then "" else [Lower(s[0])] + ToLower(s[1..])
  }

  /** The parsed value, or nothing when the schema reports an error. */
  ghost function AddDomain(input: string): Option<string> {
    var domain := Trim(input);
    if 1 <= |domain| <= MAX_LENGTH && Matches(DomainRe(), domain) then Some(ToLower(domain)) else None
  }

  // ---------- The definition by labels ----------

  predicate IsAlphabetic(c: char) {
    'A' <= c <= 'Z' || 'a' <= c <= 'z'
  }

  predicate InHostLabel(c: char) {
    IsAlphabetic(c) || '0' <= c <= '9' || c == '-'
  }

  /** A host label as section 2.1 of RFC 1123 and section 2.3.4 of RFC 1035 have it. */
  predicate HostLabel(l: string) {
    && 1 <= |l| <= 63
    && (forall i :: 0 <= i < |l| ==> InHostLabel(l[i]))
    && l[0] != '-' && l[|l| - 1] != '-'
  }

  predicate TopLabel(l: string) {
    |l| >= 2 && forall i :: 0 <= i < |l| ==> IsAlphabetic(l[i])
  }

  predicate LabelsOk(parts: seq<string>) {
    && |parts| >= 2
    && (forall i :: 0 <= i < |parts| - 1 ==> HostLabel(parts[i]))
    && TopLabel(parts[|parts| - 1])
  }

  // ---------- One label ----------

  lemma RunThenOne(run: CharClass, last: CharClass, max: nat, s: string)
    ensures Matches(Cat(Repeat(Chr(run), 0, Some(max)), Chr(last)), s) <==>
            1 <= |s| <= max + 1 && AllIn(run, s[..|s| - 1]) && InClass(last, s[|s| - 1])
  {
    var re, end := Repeat(Chr(run), 0, Some(max)), Chr(last);
    if Matches(Cat(re, end), s) {
      var a, b := CatElim(re, end, s);
      RepeatOfClass(run, 0, Some(max), a);
      ChrMatches(last, b);
      assert s[..|s| - 1] == a;
    }
    if 1 <= |s| <= max + 1 && AllIn(run, s[..|s| - 1]) && InClass(last, s[|s| - 1]) {
      var a, b := s[..|s| - 1], s[|s| - 1..];
      RepeatOfClass(run, 0, Some(max), a);
      ChrMatches(last, b);
      CatIntro(re, end, a, b);
      assert a + b == s;
    }
  }

  lemma LabelParts(head: Regex, tail: Regex, s: string)
    requires head == Chr(LetterDigit)
    ensures Matches(Cat(head, Opt(tail)), s) <==>
            s != "" && InClass(LetterDigit, s[0]) && (s[1..] == "" || Matches(tail, s[1..]))
  {
    if Matches(Cat(head, Opt(tail)), s) {
      var a, b := CatElim(head, Opt(tail), s);
      ChrMatches(LetterDigit, a);
      OptMatches(tail, b);
      assert s[1..] == b;
    }
    if s != "" && InClass(LetterDigit, s[0]) && (s[1..] == "" || Matches(tail, s[1..])) {
      ChrMatches(LetterDigit, s[..1]);
      OptMatches(tail, s[1..]);
      CatIntro(head, Opt(tail), s[..1], s[1..]);
      assert s[..1] + s[1..] == s;
    }
  }

  lemma LabelChars(s: string)
    requires |s| >= 2
    ensures HostLabel(s) <==>
            && |s| <= 63 && InClass(LetterDigit, s[0])
            && AllIn(LetterDigitHyphen, s[1..][..|s| - 2]) && InClass(LetterDigit, s[1..][|s| - 2])
  {
    var first, middle, last := s[..1], s[1..][..|s| - 2], [s[|s| - 1]];
    assert s == first + (middle + last);
    AllInConcat(LetterDigitHyphen, first, middle + last);
    AllInConcat(LetterDigitHyphen, middle, last);
    assert s[1..][|s| - 2] == last[0];
    assert AllIn(LetterDigitHyphen, first) <==> InClass(LetterDigitHyphen, s[0]);
  }

  lemma ShortLabelMatches(s: string)
    requires |s| <= 1
    ensures Matches(Label(), s) <==> HostLabel(s)
  {
    LabelParts(Chr(LetterDigit), LabelTail(), s);
    assert s != "" ==> s[1..] == "";
  }

  lemma LongLabelMatches(s: string)
    requires |s| >= 2
    ensures Matches(Label(), s) <==> HostLabel(s)
  {
    LabelParts(Chr(LetterDigit), LabelTail(), s);
    RunThenOne(LetterDigitHyphen, LetterDigit, 61, s[1..]);
    LabelChars(s);
  }

  lemma LabelMatches(s: string)
    ensures Matches(Label(), s) <==> HostLabel(s)
  {
    if |s| <= 1 {
      ShortLabelMatches(s);
    } else {
      LongLabelMatches(s);
    }
  }

  lemma HostLabelNoDot(l: string)
    requires HostLabel(l)
    ensures '.' !in l
  {
  }

  lemma DottedMatches(s: string)
    ensures Matches(DottedLabel(), s) <==> s != "" && s[|s| - 1] == '.' && HostLabel(s[..|s| - 1])
  {
    if Matches(DottedLabel(), s) {
      var a, b := CatElim(Label(), Chr(Exactly('.')), s);
      LabelMatches(a);
      ChrMatches(Exactly('.'), b);
      assert s[..|s| - 1] == a;
    }
    if s != "" && s[|s| - 1] == '.' && HostLabel(s[..|s| - 1]) {
      var a, b := s[..|s| - 1], s[|s| - 1..];
      LabelMatches(a);
      ChrMatches(Exactly('.'), b);
      CatIntro(Label(), Chr(Exactly('.')), a, b);
      assert a + b == s;
    }
  }

  // ---------- Several labels ----------

  predicate AllHostLabels(parts: seq<string>) {
    forall i :: 0 <= i < |parts| ==> HostLabel(parts[i])
  }

  lemma {:induction false} SplitTail(s: string)
    requires |Split(s, '.')| >= 2
    ensures var head := Split(s, '.')[0];
            |head| < |s| && s[..|head|] == head && s[|head|] == '.' && Split(s[|head| + 1..], '.') == Split(s, '.')[1..]
  {
    if s[0] != '.' {
      SplitTail(s[1..]);
      var head := Split(s[1..], '.')[0];
      assert s[..|head| + 1] == [s[0]] + s[1..][..|head|];
      assert s[1..][|head| + 1..] == s[|head| + 2..];
    }
  }

  lemma SplitHead(s: string) returns (head: string, rest: string)
    requires |Split(s, '.')| >= 2
    ensures s == head + ['.'] + rest && Split(s, '.') == [head] + Split(rest, '.')
  {
    SplitTail(s);
    head := Split(s, '.')[0];
    rest := s[|head| + 1..];
  }

  predicate DottedParts(n: nat, parts: seq<string>) {
    |parts| == n + 1 && AllHostLabels(parts[..n]) && parts[n] == ""
  }

  lemma DottedPartsCons(n: nat, l: string, rest: seq<string>)
    requires n > 0
    ensures DottedParts(n, [l] + rest) <==> HostLabel(l) && DottedParts(n - 1, rest)
  {
    var parts := [l] + rest;
    if |rest| == n {
      assert parts[..n] == [l] + rest[..n - 1];
      if AllHostLabels(parts[..n]) {
        assert forall k :: 0 <= k < n - 1 ==> rest[k] == parts[..n][k + 1];
        assert parts[..n][0] == l;
      }
    }
  }

  lemma LabelOf(a: string) returns (l: string)
    requires Matches(DottedLabel(), a)
    ensures a == l + ['.'] && HostLabel(l) && '.' !in l
  {
    DottedMatches(a);
    l := a[..|a| - 1];
    HostLabelNoDot(l);
  }

  lemma {:induction false} TimesIsDotted(n: nat, s: string)
    requires Times(DottedLabel(), n, s)
    ensures DottedParts(n, Split(s, '.'))
  {
    if n > 0 {
      var a, b := TimesElim(DottedLabel(), n, s);
      TimesIsDotted(n - 1, b);
      var l := LabelOf(a);
      SplitFirst(l, '.', b);
      DottedPartsCons(n, l, Split(b, '.'));
    }
  }

  lemma {:induction false} DottedIsTimes(n: nat, s: string)
    requires DottedParts(n, Split(s, '.'))
    ensures Times(DottedLabel(), n, s)
  {
    var parts := Split(s, '.');
    if n == 0 {
      JoinSplit(s, '.');
    } else {
      var l, b := SplitHead(s);
      DottedPartsCons(n, l, Split(b, '.'));
      DottedIsTimes(n - 1, b);
      OneMoreDotted(n, l, b);
    }
  }

  lemma OneMoreDotted(n: nat, l: string, b: string)
    requires n > 0 && HostLabel(l) && Times(DottedLabel(), n - 1, b)
    ensures Times(DottedLabel(), n, l + ['.'] + b)
  {
    assert (l + ['.'])[..|l|] == l;
    DottedMatches(l + ['.']);
    TimesIntro(DottedLabel(), n - 1, l + ['.'], b);
  }

  /** n dotted labels are n labels and an empty rest after the last dot. */
  lemma TimesDotted(n: nat, s: string)
    ensures Times(DottedLabel(), n, s) <==> DottedParts(n, Split(s, '.'))
  {
    if Times(DottedLabel(), n, s) {
      TimesIsDotted(n, s);
    }
    if DottedParts(n, Split(s, '.')) {
      DottedIsTimes(n, s);
    }
  }

  lemma SplitWhole(s: string)
    requires |Split(s, '.')| == 1
    ensures '.' !in s && Split(s, '.') == [s]
  {
    JoinSplit(s, '.');
    SplitPieces(s, '.');
    assert Split(s, '.')[0] == s;
  }

  lemma {:induction false} SplitSuffix(s: string, suffix: string)
    requires '.' !in suffix
    ensures var parts := Split(s, '.');
            Split(s + suffix, '.') == parts[..|parts| - 1] + [parts[|parts| - 1] + suffix]
    decreases |s|
  {
    if |Split(s, '.')| == 1 {
      SplitWhole(s);
      SplitPlain(s + suffix, '.');
    } else {
      var head, rest := SplitHead(s);
      SplitPieces(s, '.');
      assert Split(s, '.')[0] == head;
      SplitSuffix(rest, suffix);
      ConcatAssoc(head + ['.'], rest, suffix);
      SplitFirst(head, '.', rest + suffix);
      var parts := Split(rest, '.');
      assert ([head] + parts)[..|parts|] == [head] + parts[..|parts| - 1];
    }
  }

  lemma {:induction false} SplitEnd(s: string)
    ensures var last := Split(s, '.')[|Split(s, '.')| - 1];
            |last| <= |s| && s[|s| - |last|..] == last && '.' !in last
  {
    if s != "" {
      SplitEnd(s[1..]);
      var rest := Split(s[1..], '.');
      var last := rest[|rest| - 1];
      assert s[1..][|s| - 1 - |last|..] == s[|s| - |last|..];
      if s[0] != '.' && |rest| == 1 {
        JoinSplit(s[1..], '.');
        assert last == s[1..] && [s[0]] + last == s;
      }
    }
  }

  lemma SplitDotted(n: nat, front: string, top: string)
    requires '.' !in top
    ensures DottedParts(n, Split(front, '.')) ==>
              Split(front + top, '.') == Split(front, '.')[..n] + [top]
    ensures |Split(front + top, '.')| == |Split(front, '.')|
  {
    SplitSuffix(front, top);
    assert "" + top == top;
  }

  lemma MatchHasLabels(s: string)
    requires Matches(DomainRe(), s)
    ensures LabelsOk(Split(s, '.'))
  {
    var front, top := CatElim(Plus(DottedLabel()), Repeat(Chr(Letter), 2, None), s);
    RepeatOfClass(Letter, 2, None, top);
    var n := RepeatElim(DottedLabel(), 1, None, front);
    TimesDotted(n, front);
    assert '.' !in top;
    SplitDotted(n, front, top);
    assert forall k :: 0 <= k < n ==> Split(s, '.')[k] == Split(front, '.')[..n][k];
  }

  /** In front of the last label there are dotted labels only. */
  lemma SplitTop(s: string) returns (front: string, top: string)
    requires LabelsOk(Split(s, '.'))
    ensures s == front + top && TopLabel(top) && DottedParts(|Split(s, '.')| - 1, Split(front, '.'))
  {
    var parts := Split(s, '.');
    var n := |parts| - 1;
    SplitEnd(s);
    front, top := s[..|s| - |parts[n]|], parts[n];
    assert front + top == s;
    SplitSuffix(front, top);
    var before := Split(front, '.');
    assert |before| == n + 1 && before[n] + top == top;
    assert before[n] == "";
    assert forall k :: 0 <= k < n ==> before[..n][k] == parts[k];
  }

  lemma LabelsMatch(s: string)
    requires LabelsOk(Split(s, '.'))
    ensures Matches(DomainRe(), s)
  {
    var front, top := SplitTop(s);
    var n := |Split(s, '.')| - 1;
    TimesDotted(n, front);
    RepeatIntro(DottedLabel(), 1, None, n, front);
    RepeatOfClass(Letter, 2, None, top);
    CatIntro(Plus(DottedLabel()), Repeat(Chr(Letter), 2, None), front, top);
  }

  /** The expression accepts a string exactly when its dot-separated labels are in order. */
  lemma DomainReIffLabels(s: string)
    ensures Matches(DomainRe(), s) <==> LabelsOk(Split(s, '.'))
  {
    if Matches(DomainRe(), s) {
      MatchHasLabels(s);
    }
    if LabelsOk(Split(s, '.')) {
      LabelsMatch(s);
    }
  }

  // ---------- The schema ----------

  /** What the schema accepts, in terms of labels. */
  lemma AddDomainAccepts(input: string)
    ensures AddDomain(input).Some? <==> |Trim(input)| <= 253 && LabelsOk(Split(Trim(input), '.'))
  {
    DomainReIffLabels(Trim(input));
  }

  /** The stored value: the input without white space around it, every capital letter in lower case, and every
      other character as it is. */
  lemma AddDomainValue(input: string)
    requires AddDomain(input).Some?
    ensures var domain, value := Trim(input), AddDomain(input).value;
            && |value| == |domain|
            && forall i :: 0 <= i < |domain| ==>
                 if 'A' <= domain[i] <= 'Z' then value[i] as int == domain[i] as int + 32 else value[i] == domain[i]
  {
  }

  lemma {:induction false} LowerSplit(s: string)
    ensures |Split(ToLower(s), '.')| == |Split(s, '.')|
    ensures forall i :: 0 <= i < |Split(s, '.')| ==> Split(ToLower(s), '.')[i] == ToLower(Split(s, '.')[i])
  {
    if s != "" {
      LowerSplit(s[1..]);
      var low, rest := ToLower(s), Split(s[1..], '.');
      assert low[1..] == ToLower(s[1..]) && low[0] == Lower(s[0]);
      assert low[0] == '.' <==> s[0] == '.';
      if s[0] != '.' {
        assert ToLower([s[0]] + rest[0]) == [low[0]] + ToLower(rest[0]) by {
          assert ([s[0]] + rest[0])[1..] == rest[0];
        }
      }
    }
  }

  lemma LowerLabels(s: string)
    ensures LabelsOk(Split(ToLower(s), '.')) <==> LabelsOk(Split(s, '.'))
  {
    LowerSplit(s);
    var parts := Split(s, '.');
    forall i | 0 <= i < |parts|
      ensures HostLabel(ToLower(parts[i])) <==> HostLabel(parts[i])
      ensures TopLabel(ToLower(parts[i])) <==> TopLabel(parts[i])
    {
      LowerLabel(parts[i]);
    }
  }

  lemma LowerKeepsKinds(c: char)
    ensures IsAlphabetic(Lower(c)) <==> IsAlphabetic(c)
    ensures InHostLabel(Lower(c)) <==> InHostLabel(c)
    ensures Lower(c) == '-' <==> c == '-'
  {
  }

  lemma LowerLabel(l: string)
    ensures HostLabel(ToLower(l)) <==> HostLabel(l)
    ensures TopLabel(ToLower(l)) <==> TopLabel(l)
  {
    var low := ToLower(l);
    forall i | 0 <= i < |l|
      ensures IsAlphabetic(low[i]) <==> IsAlphabetic(l[i])
      ensures InHostLabel(low[i]) <==> InHostLabel(l[i])
      ensures low[i] == '-' <==> l[i] == '-'
    {
      LowerKeepsKinds(l[i]);
    }
  }

  lemma LowerTwice(s: string)
    ensures ToLower(ToLower(s)) == ToLower(s)
  {
  }

  lemma LowerSpace(c: char)
    ensures IsSpace(Lower(c)) <==> IsSpace(c)
  {
  }

  lemma {:induction false} LowerTrimStart(s: string)
    ensures TrimStart(ToLower(s)) == ToLower(TrimStart(s))
  {
    if s != "" {
      LowerSpace(s[0]);
      LowerTrimStart(s[1..]);
      assert ToLower(s)[1..] == ToLower(s[1..]);
    }
  }

  lemma {:induction false} LowerTrimEnd(s: string)
    ensures TrimEnd(ToLower(s)) == ToLower(TrimEnd(s))
  {
    if s != "" {
      LowerSpace(s[|s| - 1]);
      LowerTrimEnd(s[..|s| - 1]);
      assert ToLower(s)[..|s| - 1] == ToLower(s[..|s| - 1]);
    }
  }

  lemma LowerTrim(s: string)
    ensures Trim(ToLower(s)) == ToLower(Trim(s))
  {
    LowerTrimStart(s);
    LowerTrimEnd(TrimStart(s));
  }

  /** The case of the input makes no difference, neither to acceptance nor to the stored value. */
  lemma {:induction false} AddDomainIgnoresCase(input: string)
    ensures AddDomain(ToLower(input)) == AddDomain(input)
  {
    LowerTrim(input);
    var domain := Trim(input);
    LowerLabels(domain);
    DomainReIffLabels(domain);
    DomainReIffLabels(ToLower(domain));
    LowerTwice(domain);
  }

  /** A stored domain is lower-case and trimmed, and adding it again accepts it and stores the same. */
  lemma AddDomainIdempotent(input: string)
    requires AddDomain(input).Some?
    ensures var domain := AddDomain(input).value;
            AddDomain(domain) == Some(domain) && ToLower(domain) == domain && IsTrimmed(domain)
  {
    var trimmed := Trim(input);
    TrimFixes(input);
    TrimFixes(trimmed);
    AddDomainIgnoresCase(trimmed);
    LowerTwice(trimmed);
    LowerTrim(trimmed);
    TrimFixes(ToLower(trimmed));
  }

  lemma LowerFixed(s: string)
    requires forall i :: 0 <= i < |s| ==> Lower(s[i]) == s[i]
    ensures ToLower(s) == s
  {
  }

  lemma StoredLabels(input: string)
    requires AddDomain(input).Some?
    ensures LabelsOk(Split(AddDomain(input).value, '.'))
  {
    DomainReIffLabels(Trim(input));
    LowerLabels(Trim(input));
  }

  lemma LimitIffLast(labels: seq<string>)
    requires LabelsOk(labels)
    ensures (forall i :: 0 <= i < |labels| ==> |labels[i]| <= 63) <==> |labels[|labels| - 1]| <= 63
  {
    assert forall i :: 0 <= i < |labels| - 1 ==> HostLabel(labels[i]);
  }

  /** A stored domain keeps the limit of 63 characters for a label, as section 2.3.4 of RFC 1035 has it, if and
      only if its last label does. */
  lemma LabelLimitIffLast(input: string)
    requires AddDomain(input).Some?
    ensures var labels := Split(AddDomain(input).value, '.');
            (forall i :: 0 <= i < |labels| ==> |labels[i]| <= 63) <==> |labels[|labels| - 1]| <= 63
  {
    StoredLabels(input);
    LimitIffLast(Split(AddDomain(input).value, '.'));
  }

  /** The expression bounds every label but the last: a top-level label of 64 letters passes,
      although section 2.3.4 of RFC 1035 allows 63. */
  lemma LongTopLabelAccepted(top: string)
    requires |top| == 64 && forall i :: 0 <= i < 64 ==> top[i] == 'a'
    ensures AddDomain(['a', '.'] + top) == Some(['a', '.'] + top)
  {
    var s := ['a', '.'] + top;
    LongTopLabels(top);
    TrimFixes(s);
    DomainReIffLabels(s);
    LowerFixed(s);
  }

  lemma LongTopLabels(top: string)
    requires |top| == 64 && forall i :: 0 <= i < 64 ==> top[i] == 'a'
    ensures LabelsOk(Split(['a', '.'] + top, '.'))
  {
    assert ['a', '.'] + top == ['a'] + ['.'] + top;
    SplitFirst(['a'], '.', top);
    SplitPlain(top, '.');
  }
}
