/**
 The two regular expressions of the documentation check (scripts/check-docs.ts).

 One looks for a time stamp anywhere in a document, the other for a line that looks like
 one. Both are given as expressions, with the meaning of matching, and both are shown to
 agree with a plain description: the first with a scanner that takes stars and white
 space greedily, the second with the lines that contain the phrase. The description of
 the syntax is a parameter, so that the long literals of the script do not get in the
 way of the proofs.
 */
module StampSyntax {
  import opened Options
  import opened Text
  import opened Regex
  import opened Sequences

  // ---------- The two expressions ----------

  /** What the two expressions are built from: the phrase of the stamp with its colon, the digits and separators
      of the time, and the phrase of a stamp-like line, which may have a longer lead. */
  datatype Syntax = Syntax(phrase: string, time: seq<CharClass>, lead: seq<CharClass>, folded: seq<CharClass>)

  /** A literal text as character classes. */
  function Literal(text: string): (classes: seq<CharClass>)
    ensures |classes| == |text| && forall i :: 0 <= i < |text| ==> classes[i] == Exactly(text[i])
  {
    if text == "" then [] else [Exactly(text[0])] + Literal(text[1..])
  }

  /** The same, ignoring case; the text is in lower case. */
  function Folded(text: string): (classes: seq<CharClass>)
    ensures |classes| == |text| && forall i :: 0 <= i < |text| ==> classes[i] == EitherCase(text[i])
  {
    if text == "" then [] else [EitherCase(text[0])] + Folded(text[1..])
  }

  function AfterYearClasses(): seq<CharClass> {
    [Exactly('-'), Digit, Digit, Exactly('-'), Digit, Digit, Exactly(' '),
     Digit, Digit, Exactly(':'), Digit, Digit, Exactly(' '), Exactly('U'), Exactly('T'), Exactly('C')]
  }

  /** Year, month, day, hour and minute as digits, with their separators and the zone. */
  function TimeClasses(): seq<CharClass> {
    [Digit, Digit, Digit, Digit] + AfterYearClasses()
  }

  /** The syntax of the script. */
  function DocsSyntax(): Syntax {
    Syntax("Last updated:", TimeClasses(), Folded("date "), Folded("last updated"))
  }

  predicate OnLine(classes: seq<CharClass>) {
    forall i :: 0 <= i < |classes| ==> classes[i].EitherCase? && !IsLineTerminator(classes[i].lower)
  }

  /** What the proofs need to know about the syntax. */
  predicate Sane(p: Syntax) {
    && p.time != [] && p.time[0] == Digit
    && p.folded != [] && OnLine(p.lead) && OnLine(p.folded)
    && |p.phrase| == |p.folded| + 1 && FitsChain(p.folded, p.phrase[..|p.folded|]) && p.phrase[|p.folded|] == ':'
    && IsLetter(p.phrase[0]) && p.phrase[0] !in p.phrase[1..]
  }

  predicate LettersAndBlanks(text: string) {
    forall i :: 0 <= i < |text| ==> IsLetter(text[i]) || text[i] == ' '
  }

  lemma LettersOnLine(text: string)
    requires LettersAndBlanks(text)
    ensures OnLine(Folded(text))
  {
  }

  /** ... and about the time and the first letter of the phrase. */
  predicate LikeDocs(p: Syntax) {
    && Sane(p) && p.phrase[0] == 'L'
    && |p.time| > 4 && (forall i :: 0 <= i < 4 ==> p.time[i] == Digit) && p.time[4..] == AfterYearClasses()
  }

  lemma LikeDocsIntro(phrase: string, time: seq<CharClass>, lead: string, folded: string)
    requires LettersAndBlanks(lead) && LettersAndBlanks(folded) && folded != ""
    requires |phrase| == |folded| + 1 && phrase[|folded|] == ':' && phrase[0] == 'L' && 'L' !in phrase[1..]
    requires forall i :: 0 <= i < |folded| ==> Lower(phrase[i]) == folded[i]
    requires |time| > 4 && (forall i :: 0 <= i < 4 ==> time[i] == Digit) && time[4..] == AfterYearClasses()
    ensures LikeDocs(Syntax(phrase, time, Folded(lead), Folded(folded)))
  {
    LettersOnLine(lead);
    LettersOnLine(folded);
    FoldedFits(folded, phrase[..|folded|]);
  }

  /** Whatever is proved for a syntax like that of the script holds for the script. */
  lemma DocsSyntaxIsLikeDocs()
    ensures LikeDocs(DocsSyntax())
  {
    LiteralFacts("Last updated:", "date ", "last updated");
    TimeFacts();
    LikeDocsIntro("Last updated:", TimeClasses(), "date ", "last updated");
  }

  lemma TimeFacts()
    ensures |TimeClasses()| > 4 && TimeClasses()[4..] == AfterYearClasses()
    ensures forall i :: 0 <= i < 4 ==> TimeClasses()[i] == Digit
  {
  }

  lemma LiteralFacts(phrase: string, lead: string, folded: string)
    requires phrase == "Last updated:" && lead == "date " && folded == "last updated"
    ensures LettersAndBlanks(lead) && LettersAndBlanks(folded)
    ensures phrase[12] == ':' && phrase[0] == 'L' && 'L' !in phrase[1..]
    ensures forall i :: 0 <= i < 12 ==> Lower(phrase[i]) == folded[i]
  {
    assert phrase[1..] == "ast updated:";
  }

  lemma FoldedFits(text: string, s: string)
    requires |s| == |text| && forall i :: 0 <= i < |s| ==> Lower(s[i]) == text[i]
    ensures FitsChain(Folded(text), s)
  {
  }

  function AfterEmphasis(p: Syntax): Regex {
    Cat(Star(Chr(Space)), Chain(p.time))
  }

  function AfterStars(p: Syntax): Regex {
    Cat(Opt(Chr(Exactly('_'))), AfterEmphasis(p))
  }

  function AfterPhrase(p: Syntax): Regex {
    Cat(Star(Chr(Exactly('*'))), Cat(Star(Chr(Space)), AfterStars(p)))
  }

  /** `STAMP_RE`, searched for anywhere in the document. */
  function StampRe(p: Syntax): Regex {
    Cat(Chain(Literal(p.phrase)), AfterPhrase(p))
  }

  function Phrases(p: Syntax): Regex {
    Alt(Chain(p.lead + p.folded), Chain(p.folded))
  }

  function FromColon(): Regex {
    Cat(Chr(Exactly(':')), Star(Chr(NotLineTerminator)))
  }

  function AfterLead(p: Syntax): Regex {
    Cat(Phrases(p), FromColon())
  }

  /** `EXISTING_LINE_RE` between the start and the end of a line. */
  function ExistingLineRe(p: Syntax): Regex {
    Cat(Star(Chr(NotLineTerminator)), Cat(Star(Chr(Exactly('*'))), AfterLead(p)))
  }

  /** `STAMP_RE.test(content)`. */
  ghost predicate Compliant(p: Syntax, content: string) {
    exists i | 0 <= i <= |content| :: MatchesPrefix(StampRe(p), content[i..])
  }

  // ---------- A deterministic scanner for the stamp ----------

  predicate FitsPrefix(classes: seq<CharClass>, s: string) {
    |classes| <= |s| && FitsChain(classes, s[..|classes|])
  }

  function DropUnderscore(s: string): string {
    if s != "" && s[0] == '_' then s[1..] else s
  }

  /** Stars, white space, an underscore, white space, each as far as they go, and then the time. */
  predicate TimeFollows(p: Syntax, s: string) {
    FitsPrefix(p.time, Skip(Space, DropUnderscore(Skip(Space, Skip(Exactly('*'), s)))))
  }

  predicate StampAt(p: Syntax, s: string) {
    OccursAt(s, p.phrase, 0) && TimeFollows(p, s[|p.phrase|..])
  }

  lemma {:induction false} SkipTwice(cc: CharClass, s: string)
    ensures Skip(cc, Skip(cc, s)) == Skip(cc, s)
  {
    if s != "" && InClass(cc, s[0]) {
      SkipTwice(cc, s[1..]);
    }
  }

  lemma TimeStartsWithDigit(p: Syntax, s: string)
    requires Sane(p) && MatchesPrefix(Chain(p.time), s)
    ensures s != "" && IsDigit(s[0])
  {
    ChainPrefix(p.time, s);
    assert s[..|p.time|][0] == s[0];
  }

  lemma DigitIsPlain(c: char)
    requires IsDigit(c)
    ensures !InClass(Space, c) && c != '_' && c != '*'
  {
  }

  lemma TimeIsPatient(p: Syntax)
    requires Sane(p)
    ensures Patient(Space, Chain(p.time))
  {
    forall s | MatchesPrefix(Chain(p.time), s)
      ensures MatchesPrefix(Chain(p.time), Skip(Space, s))
    {
      TimeStartsWithDigit(p, s);
      DigitIsPlain(s[0]);
    }
  }

  lemma AfterEmphasisPrefix(p: Syntax, s: string)
    requires Sane(p)
    ensures MatchesPrefix(AfterEmphasis(p), s) <==> MatchesPrefix(Chain(p.time), Skip(Space, s))
  {
    TimeIsPatient(p);
    StarIsGreedy(Space, Chain(p.time), s);
  }

  lemma AfterStarsPrefix(p: Syntax, s: string)
    requires Sane(p)
    ensures MatchesPrefix(AfterStars(p), s) <==> MatchesPrefix(Chain(p.time), Skip(Space, DropUnderscore(s)))
  {
    OptPrefix(Exactly('_'), AfterEmphasis(p), s);
    AfterEmphasisPrefix(p, s);
    if s != "" && s[0] == '_' {
      AfterEmphasisPrefix(p, s[1..]);
      assert Skip(Space, s) == s;
      if MatchesPrefix(Chain(p.time), s) {
        TimeStartsWithDigit(p, s);
      }
    }
  }

  lemma AfterStarsPatient(p: Syntax)
    requires Sane(p)
    ensures Patient(Space, AfterStars(p))
  {
    forall s | MatchesPrefix(AfterStars(p), s)
      ensures MatchesPrefix(AfterStars(p), Skip(Space, s))
    {
      AfterStarsPrefix(p, s);
      AfterStarsPrefix(p, Skip(Space, s));
      if s != "" && InClass(Space, s[0]) {
        SkipTwice(Space, s);
        TimeStartsWithDigit(p, Skip(Space, s));
        DigitIsPlain(Skip(Space, s)[0]);
      }
    }
  }

  lemma SpacesPatientForStars(p: Syntax)
    requires Sane(p)
    ensures Patient(Exactly('*'), Cat(Star(Chr(Space)), AfterStars(p)))
  {
    AfterStarsPatient(p);
    forall s | MatchesPrefix(Cat(Star(Chr(Space)), AfterStars(p)), s)
      ensures MatchesPrefix(Cat(Star(Chr(Space)), AfterStars(p)), Skip(Exactly('*'), s))
    {
      StarIsGreedy(Space, AfterStars(p), s);
      if s != "" && s[0] == '*' {
        assert Skip(Space, s) == s;
        AfterStarsPrefix(p, s);
        TimeStartsWithDigit(p, s);
      }
    }
  }

  lemma AfterPhrasePrefix(p: Syntax, s: string)
    requires Sane(p)
    ensures MatchesPrefix(AfterPhrase(p), s) <==> TimeFollows(p, s)
  {
    var t := Skip(Exactly('*'), s);
    SpacesPatientForStars(p);
    StarIsGreedy(Exactly('*'), Cat(Star(Chr(Space)), AfterStars(p)), s);
    AfterStarsPatient(p);
    StarIsGreedy(Space, AfterStars(p), t);
    AfterStarsPrefix(p, Skip(Space, t));
    ChainPrefix(p.time, Skip(Space, DropUnderscore(Skip(Space, t))));
  }

  lemma LiteralFits(text: string, s: string)
    ensures FitsChain(Literal(text), s) <==> s == text
  {
    if FitsChain(Literal(text), s) {
      assert forall i :: 0 <= i < |s| ==> InClass(Literal(text)[i], s[i]);
    }
  }

  /** The scanner finds a stamp at a position exactly when the expression matches there. */
  lemma StampAtIffMatch(p: Syntax, s: string)
    requires Sane(p)
    ensures StampAt(p, s) <==> MatchesPrefix(StampRe(p), s)
  {
    ChainCatPrefix(Literal(p.phrase), AfterPhrase(p), s);
    if |p.phrase| <= |s| {
      LiteralFits(p.phrase, s[..|p.phrase|]);
      AfterPhrasePrefix(p, s[|p.phrase|..]);
    }
  }

  /** The search of `STAMP_RE.test`, position by position. */
  method TestStamp(p: Syntax, content: string) returns (ok: bool)
    requires Sane(p)
    ensures ok <==> Compliant(p, content)
  {
    ok := false;
    var i := 0;
    while i <= |content| && !ok
      invariant i <= |content| + 1
      invariant ok ==> Compliant(p, content)
      invariant !ok ==> forall k :: 0 <= k < i ==> !MatchesPrefix(StampRe(p), content[k..])
    {
      StampAtIffMatch(p, content[i..]);
      ok := StampAt(p, content[i..]);
      i := i + 1;
    }
  }

  // ---------- Lines that look like a stamp ----------

  /** The shorter phrase, in any case and with a colon, starts the string. */
  predicate PhraseStarts(p: Syntax, s: string) {
    |p.folded| < |s| && FitsChain(p.folded, s[..|p.folded|]) && s[|p.folded|] == ':'
  }

  predicate HasPhrase(p: Syntax, line: string) {
    exists at | 0 <= at <= |line| :: PhraseStarts(p, line[at..])
  }

  lemma PhraseInSuffix(p: Syntax, a: string, b: string)
    requires HasPhrase(p, b)
    ensures HasPhrase(p, a + b)
  {
    var at :| 0 <= at <= |b| && PhraseStarts(p, b[at..]);
    assert (a + b)[|a| + at..] == b[at..];
  }

  /** What follows the lead of a stamp-like line: one of the phrases, a colon, and the rest of the line. */
  lemma LeadParts(p: Syntax, s: string) returns (w: string, tail: string)
    requires Matches(AfterLead(p), s)
    ensures s == w + ([':'] + tail) && AllIn(NotLineTerminator, tail)
    ensures FitsChain(p.folded, w) || FitsChain(p.lead + p.folded, w)
  {
    var rest, colon: string;
    w, rest := CatElim(Phrases(p), FromColon(), s);
    colon, tail := CatElim(Chr(Exactly(':')), Star(Chr(NotLineTerminator)), rest);
    ChrMatches(Exactly(':'), colon);
    RepeatOfClass(NotLineTerminator, 0, None, tail);
    ChainMatches(p.lead + p.folded, w);
    ChainMatches(p.folded, w);
    assert colon == [':'];
  }

  lemma ChainSuffix(first: seq<CharClass>, second: seq<CharClass>, w: string)
    requires FitsChain(first + second, w)
    ensures FitsChain(second, w[|first|..])
  {
    assert forall i :: 0 <= i < |second| ==> (first + second)[|first| + i] == second[i];
  }

  lemma LeadEndsInPhrase(p: Syntax, s: string)
    requires Matches(AfterLead(p), s)
    ensures HasPhrase(p, s)
  {
    var w, tail := LeadParts(p, s);
    var lead, phrase := "", w;
    if !FitsChain(p.folded, w) {
      ChainSuffix(p.lead, p.folded, w);
      lead, phrase := w[..|p.lead|], w[|p.lead|..];
    }
    var t := phrase + ([':'] + tail);
    assert s == lead + t;
    assert t[..|p.folded|] == phrase;
    assert t[0..] == t;
    assert PhraseStarts(p, t);
    PhraseInSuffix(p, lead, t);
  }

  lemma PhraseMatchesLead(p: Syntax, s: string)
    requires PhraseStarts(p, s) && AllIn(NotLineTerminator, s)
    ensures Matches(AfterLead(p), s)
  {
    var n := |p.folded|;
    var w, rest := s[..n], s[n..];
    ChainMatches(p.folded, w);
    ChrMatches(Exactly(':'), rest[..1]);
    assert w + rest == s && rest[..1] + rest[1..] == rest;
    AllInConcat(NotLineTerminator, w, rest);
    AllInConcat(NotLineTerminator, rest[..1], rest[1..]);
    RepeatOfClass(NotLineTerminator, 0, None, rest[1..]);
    CatIntro(Chr(Exactly(':')), Star(Chr(NotLineTerminator)), rest[..1], rest[1..]);
    CatIntro(Phrases(p), FromColon(), w, rest);
  }

  lemma MatchHasPhrase(p: Syntax, line: string)
    requires Matches(ExistingLineRe(p), line)
    ensures HasPhrase(p, line)
  {
    var lead, stars := Star(Chr(NotLineTerminator)), Star(Chr(Exactly('*')));
    var a, b := CatElim(lead, Cat(stars, AfterLead(p)), line);
    var c, d := CatElim(stars, AfterLead(p), b);
    LeadEndsInPhrase(p, d);
    PhraseInSuffix(p, c, d);
    PhraseInSuffix(p, a, b);
  }

  lemma PhraseMatches(p: Syntax, line: string)
    requires HasPhrase(p, line) && AllIn(NotLineTerminator, line)
    ensures Matches(ExistingLineRe(p), line)
  {
    var lead, stars := Star(Chr(NotLineTerminator)), Star(Chr(Exactly('*')));
    var at :| 0 <= at <= |line| && PhraseStarts(p, line[at..]);
    var a, d := line[..at], line[at..];
    assert a + d == line;
    AllInConcat(NotLineTerminator, a, d);
    PhraseMatchesLead(p, d);
    RepeatOfClass(NotLineTerminator, 0, None, a);
    RepeatOfClass(Exactly('*'), 0, None, "");
    CatIntro(stars, AfterLead(p), "", d);
    assert "" + d == d;
    CatIntro(lead, Cat(stars, AfterLead(p)), a, d);
  }

  lemma FoldedOnLine(classes: seq<CharClass>, w: string)
    requires FitsChain(classes, w) && OnLine(classes)
    ensures AllIn(NotLineTerminator, w)
  {
  }

  lemma MatchStaysOnLine(p: Syntax, line: string)
    requires Sane(p) && Matches(ExistingLineRe(p), line)
    ensures AllIn(NotLineTerminator, line)
  {
    var lead, stars := Star(Chr(NotLineTerminator)), Star(Chr(Exactly('*')));
    var a, b := CatElim(lead, Cat(stars, AfterLead(p)), line);
    var c, d := CatElim(stars, AfterLead(p), b);
    RepeatOfClass(NotLineTerminator, 0, None, a);
    RepeatOfClass(Exactly('*'), 0, None, c);
    LeadOnLine(p, d);
    AllInConcat(NotLineTerminator, c, d);
    AllInConcat(NotLineTerminator, a, b);
  }

  lemma PhraseOnLine(p: Syntax, w: string)
    requires Sane(p) && (FitsChain(p.folded, w) || FitsChain(p.lead + p.folded, w))
    ensures AllIn(NotLineTerminator, w)
  {
    if FitsChain(p.folded, w) {
      FoldedOnLine(p.folded, w);
    } else {
      assert OnLine(p.lead + p.folded);
      FoldedOnLine(p.lead + p.folded, w);
    }
  }

  lemma LeadOnLine(p: Syntax, s: string)
    requires Sane(p) && Matches(AfterLead(p), s)
    ensures AllIn(NotLineTerminator, s)
  {
    var w, tail := LeadParts(p, s);
    PhraseOnLine(p, w);
    AllInConcat(NotLineTerminator, [':'], tail);
    AllInConcat(NotLineTerminator, w, [':'] + tail);
  }

  /** The expression matches exactly the single lines in which the phrase occurs somewhere. */
  lemma ExistingLineIffPhrase(p: Syntax, line: string)
    requires Sane(p)
    ensures Matches(ExistingLineRe(p), line) <==> HasPhrase(p, line) && AllIn(NotLineTerminator, line)
  {
    if Matches(ExistingLineRe(p), line) {
      MatchHasPhrase(p, line);
      MatchStaysOnLine(p, line);
    }
    if HasPhrase(p, line) && AllIn(NotLineTerminator, line) {
      PhraseMatches(p, line);
    }
  }
}
