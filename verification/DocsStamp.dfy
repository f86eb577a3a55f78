/** The documentation check (scripts/check-docs.ts): every document must carry a time stamp, and `--fix` writes one
    into the documents that do not. */
module DocsStamp {
  import opened Options
  import opened Text
  import opened Regex
  import opened Sequences
  import opened StampSyntax

  // ---------- The first such line of a document ----------

  predicate StartsLine(content: string, a: nat) {
    a <= |content| && (a == 0 || IsLineTerminator(content[a - 1]))
  }

  /** Where the line around a position ends. */
  function LineEnd(content: string, a: nat): (b: nat)
    requires a <= |content|
    ensures a <= b <= |content|
    ensures forall i :: a <= i < b ==> !IsLineTerminator(content[i])
    ensures b < |content| ==> IsLineTerminator(content[b])
    decreases |content| - a
  {
    if a == |content| || IsLineTerminator(content[a]) then a else LineEnd(content, a + 1)
  }

  /** The expression matches a whole line: `^` and `$` with the multi-line flag. */
  ghost predicate LineMatch(p: Syntax, content: string, a: nat, b: nat) {
    && a <= b <= |content|
    && StartsLine(content, a)
    && (b == |content| || IsLineTerminator(content[b]))
    && Matches(ExistingLineRe(p), content[a..b])
  }

  /** The first stamp-like line from a line start on, as its two ends. */
  function FirstLike(p: Syntax, content: string, a: nat): (r: Option<(nat, nat)>)
    requires a <= |content|
    ensures r.Some? ==> a <= r.value.0 <= r.value.1 <= |content|
    decreases |content| - a
  {
    var b := LineEnd(content, a);
    if HasPhrase(p, content[a..b]) then Some((a, b))
    else if b == |content| then None
    else FirstLike(p, content, b + 1)
  }

  lemma MatchIsLine(p: Syntax, content: string, a: nat, b: nat)
    requires Sane(p) && LineMatch(p, content, a, b)
    ensures b == LineEnd(content, a) && HasPhrase(p, content[a..b])
  {
    ExistingLineIffPhrase(p, content[a..b]);
    var e := LineEnd(content, a);
    assert forall i :: a <= i < b ==> content[i] == content[a..b][i - a];
  }

  lemma LineIsMatch(p: Syntax, content: string, a: nat)
    requires Sane(p) && StartsLine(content, a) && HasPhrase(p, content[a..LineEnd(content, a)])
    ensures LineMatch(p, content, a, LineEnd(content, a))
  {
    var line := content[a..LineEnd(content, a)];
    assert forall i :: 0 <= i < |line| ==> line[i] == content[a + i];
    ExistingLineIffPhrase(p, line);
  }

  ghost predicate NoMatchBetween(p: Syntax, content: string, lo: nat, hi: nat) {
    forall a: nat, b: nat :: lo <= a < hi ==> !LineMatch(p, content, a, b)
  }

  lemma NoMatchJoin(p: Syntax, content: string, lo: nat, mid: nat, hi: nat)
    requires NoMatchBetween(p, content, lo, mid) && NoMatchBetween(p, content, mid, hi)
    ensures NoMatchBetween(p, content, lo, hi)
  {
  }

  /** The scan finds the leftmost match of the expression, and finds none only if there is none. */
  lemma {:induction false} FirstLikeIsFirstMatch(p: Syntax, content: string, from: nat)
    requires Sane(p) && StartsLine(content, from)
    ensures var r := FirstLike(p, content, from);
            && (r.Some? ==> LineMatch(p, content, r.value.0, r.value.1))
            && NoMatchBetween(p, content, from, if r.Some? then r.value.0 else |content| + 1)
    decreases |content| - from
  {
    var e := LineEnd(content, from);
    if HasPhrase(p, content[from..e]) {
      LineIsMatch(p, content, from);
    } else {
      NoMatchOnLine(p, content, from);
      if e < |content| {
        FirstLikeIsFirstMatch(p, content, e + 1);
        var r := FirstLike(p, content, e + 1);
        NoMatchJoin(p, content, from, e + 1, if r.Some? then r.value.0 else |content| + 1);
      }
    }
  }

  lemma NoMatchOnLine(p: Syntax, content: string, from: nat)
    requires Sane(p) && StartsLine(content, from) && !HasPhrase(p, content[from..LineEnd(content, from)])
    ensures NoMatchBetween(p, content, from, LineEnd(content, from) + 1)
  {
    forall a: nat, b: nat | from <= a <= LineEnd(content, from)
      ensures !LineMatch(p, content, a, b)
    {
      if a == from && LineMatch(p, content, a, b) {
        MatchIsLine(p, content, a, b);
      }
    }
  }

  // ---------- The fix ----------

  function Canonical(p: Syntax, stamp: string): string {
    "_" + p.phrase + " " + stamp + "_"
  }

  const FOOTER := "\n\n---\n\n"

  /** What stays in front of the canonical line and behind it. */
  function Around(p: Syntax, content: string): (string, string) {
    match FirstLike(p, content, 0)
    case Some((a, b)) => (content[..a], content[b..])
    case None => (TrimEnd(content) + FOOTER, "\n")
  }

  /** `applyStamp`. */
  function ApplyStamp(p: Syntax, content: string, stamp: string): string {
    Around(p, content).0 + Canonical(p, stamp) + Around(p, content).1
  }

  /** What `--fix` leaves of one document. */
  ghost function FixedDoc(p: Syntax, content: string, stamp: string): string {
    if Compliant(p, content) then content else ApplyStamp(p, content, stamp)
  }

  /** What changes: the first line the expression matches is replaced by the canonical line, and everything
      around it stays; without such a line a footer follows the text without its trailing white space. */
  lemma StampChangesOnly(p: Syntax, content: string, stamp: string)
    requires Sane(p)
    ensures var r := FirstLike(p, content, 0);
            && (r.Some? ==>
                  var (a, b) := r.value;
                  && LineMatch(p, content, a, b)
                  && (forall c: nat, d: nat :: c < a ==> !LineMatch(p, content, c, d))
                  && ApplyStamp(p, content, stamp) == content[..a] + Canonical(p, stamp) + content[b..])
            && (r.None? ==>
                  && (forall c: nat, d: nat :: !LineMatch(p, content, c, d))
                  && ApplyStamp(p, content, stamp) == TrimEnd(content) + FOOTER + Canonical(p, stamp) + "\n")
  {
    FirstLikeIsFirstMatch(p, content, 0);
  }

  lemma JoinLiterals(a: string, b: string, c: string, d: string, kept: string, stamp: string)
    requires a == "_" + b && c == FOOTER + a
    ensures kept + FOOTER + ("_" + b + d + stamp + "_") + "\n" == kept + c + d + stamp + "_\n"
  {
    assert "_" + "\n" == "_\n";
    assert kept + FOOTER + ("_" + b + d + stamp + "_") + "\n" == kept + (FOOTER + ("_" + b)) + d + stamp + ("_" + "\n");
  }

  /** What the script writes, to the letter. */
  lemma ScriptWrites(content: string, stamp: string)
    ensures Canonical(DocsSyntax(), stamp) == "_Last updated:" + " " + stamp + "_"
    ensures FirstLike(DocsSyntax(), content, 0).None? ==>
              ApplyStamp(DocsSyntax(), content, stamp)
                == TrimEnd(content) + "\n\n---\n\n_Last updated:" + " " + stamp + "_\n"
  {
    var b, kept := "Last updated:", TrimEnd(content);
    assert "_" + b == "_Last updated:";
    assert FOOTER + "_Last updated:" == "\n\n---\n\n_Last updated:";
    JoinLiterals("_Last updated:", b, "\n\n---\n\n_Last updated:", " ", kept, stamp);
  }

  // ---------- When the fixed document complies ----------

  ghost predicate NoPhrase(p: Syntax, s: string) {
    forall i :: 0 <= i <= |s| ==> !OccursAt(s, p.phrase, i)
  }

  ghost predicate NoStamp(p: Syntax, s: string) {
    forall i :: 0 <= i <= |s| ==> !StampAt(p, s[i..])
  }

  lemma CompliantIffStamp(p: Syntax, s: string)
    requires Sane(p)
    ensures Compliant(p, s) <==> !NoStamp(p, s)
  {
    forall i | 0 <= i <= |s|
      ensures StampAt(p, s[i..]) <==> MatchesPrefix(StampRe(p), s[i..])
    {
      StampAtIffMatch(p, s[i..]);
    }
  }

  lemma PhraseChar(p: Syntax, s: string, i: nat, k: nat)
    requires Sane(p) && OccursAt(s, p.phrase, i) && i <= k < i + |p.phrase|
    ensures s[k] == p.phrase[k - i] && !IsLineTerminator(s[k]) && (s[k] == p.phrase[0] ==> k == i)
  {
    assert s[k] == s[i..i + |p.phrase|][k - i];
    if k - i < |p.folded| {
      assert InClass(p.folded[k - i], p.phrase[..|p.folded|][k - i]);
    }
    if k > i {
      assert p.phrase[1..][k - i - 1] == p.phrase[k - i];
    }
  }

  /** A phrase cannot reach over the end of a line. */
  lemma PhraseOnOneSide(p: Syntax, x: string, y: string, i: nat)
    requires Sane(p) && OccursAt(x + y, p.phrase, i)
    requires x == "" || y == "" || IsLineTerminator(x[|x| - 1]) || IsLineTerminator(y[0])
    ensures (i + |p.phrase| <= |x| && OccursAt(x, p.phrase, i)) || (|x| <= i && OccursAt(y, p.phrase, i - |x|))
  {
    var s, n := x + y, |p.phrase|;
    if i + n <= |x| {
      assert x[i..i + n] == s[i..i + n];
    } else if |x| <= i {
      assert s[|x|..] == y;
      assert y[i - |x|..i - |x| + n] == s[|x|..][i - |x|..i - |x| + n] == s[i..i + n];
    } else {
      PhraseChar(p, s, i, |x| - 1);
      PhraseChar(p, s, i, |x|);
    }
  }

  function LineStart(content: string, i: nat): (a: nat)
    requires i <= |content|
    ensures a <= i && StartsLine(content, a)
    ensures forall k :: a <= k < i ==> !IsLineTerminator(content[k])
  {
    if i == 0 || IsLineTerminator(content[i - 1]) then i else LineStart(content, i - 1)
  }

  /** A line that contains the phrase is a match of the line expression. */
  lemma PhraseMakesLine(p: Syntax, content: string, i: nat)
    requires Sane(p) && OccursAt(content, p.phrase, i)
    ensures LineMatch(p, content, LineStart(content, i), LineEnd(content, LineStart(content, i)))
  {
    var n := |p.phrase|;
    var a := LineStart(content, i);
    var e := LineEnd(content, a);
    forall k | i <= k < i + n
      ensures !IsLineTerminator(content[k])
    {
      PhraseChar(p, content, i, k);
    }
    assert e >= i + n;
    var line := content[a..e];
    var rest := line[i - a..];
    assert rest[..n] == content[i..i + n];
    assert rest[..|p.folded|] == p.phrase[..|p.folded|];
    assert rest[|p.folded|] == p.phrase[|p.folded|];
    assert PhraseStarts(p, rest);
    LineIsMatch(p, content, a);
  }

  /** Nothing in front of the canonical line contains the phrase, and what is in front ends a line. */
  lemma BeforeIsClear(p: Syntax, content: string)
    requires Sane(p)
    ensures var before := Around(p, content).0;
            NoPhrase(p, before) && (before == "" || IsLineTerminator(before[|before| - 1]))
  {
    var r := FirstLike(p, content, 0);
    FirstLikeIsFirstMatch(p, content, 0);
    if r.Some? {
      PrefixIsClear(p, content, content[..r.value.0]);
    } else {
      TrimEndSpec(content);
      PrefixIsClear(p, content, TrimEnd(content));
      WithFooterIsClear(p, TrimEnd(content));
    }
  }

  /** A prefix of the document in which no line matches has no phrase. */
  lemma PrefixIsClear(p: Syntax, content: string, kept: string)
    requires Sane(p) && |kept| <= |content| && kept == content[..|kept|]
    requires forall a: nat, b: nat :: a < |kept| ==> !LineMatch(p, content, a, b)
    ensures NoPhrase(p, kept)
  {
    forall i | 0 <= i <= |kept|
      ensures !OccursAt(kept, p.phrase, i)
    {
      if OccursAt(kept, p.phrase, i) {
        SliceOfPrefix(content, |kept|, i, i + |p.phrase|);
        PhraseMakesLine(p, content, i);
      }
    }
  }

  lemma WithFooterIsClear(p: Syntax, kept: string)
    requires Sane(p) && NoPhrase(p, kept)
    ensures NoPhrase(p, kept + FOOTER)
  {
    forall i | 0 <= i <= |kept + FOOTER|
      ensures !OccursAt(kept + FOOTER, p.phrase, i)
    {
      if OccursAt(kept + FOOTER, p.phrase, i) {
        PhraseOnOneSide(p, kept, FOOTER, i);
        FooterIsClear(p, i - |kept|);
      }
    }
  }

  lemma FooterIsClear(p: Syntax, i: int)
    requires Sane(p)
    ensures i >= 0 ==> !OccursAt(FOOTER, p.phrase, i)
  {
    if 0 <= i < |FOOTER| {
      assert FOOTER[i] == '\n' || FOOTER[i] == '-';
      DiffersAt(FOOTER, p.phrase, i, 0);
    }
  }

  /** A document without a stamp has none behind the line that is replaced, nor in a fresh footer. */
  lemma AfterIsClear(p: Syntax, content: string)
    requires Sane(p) && !Compliant(p, content)
    ensures NoStamp(p, Around(p, content).1)
  {
    CompliantIffStamp(p, content);
    var r := FirstLike(p, content, 0);
    if r.Some? {
      var b := r.value.1;
      forall i | 0 <= i <= |content[b..]|
        ensures !StampAt(p, content[b..][i..])
      {
        assert content[b..][i..] == content[b + i..];
      }
    }
  }

  /** The first letter of the phrase is in the line only right behind its first character. */
  ghost predicate PhraseSecond(p: Syntax, line: string)
    requires p.phrase != ""
  {
    forall k :: 0 <= k < |line| && line[k] == p.phrase[0] ==> k == 1
  }

  /** A stamp in the fixed document can only be the one just written. */
  lemma OnlyTheNewStamp(p: Syntax, before: string, line: string, after: string, i: nat)
    requires Sane(p) && PhraseSecond(p, line)
    requires NoPhrase(p, before) && (before == "" || IsLineTerminator(before[|before| - 1])) && NoStamp(p, after)
    requires i <= |before + (line + after)| && StampAt(p, (before + (line + after))[i..])
    ensures i == |before| + 1
  {
    PhraseBehind(p, before, line + after, i);
    DropConcat(before, line + after, i);
    StampInCanonical(p, line, after, i - |before|);
  }

  lemma StampInCanonical(p: Syntax, line: string, after: string, k: nat)
    requires Sane(p) && PhraseSecond(p, line) && NoStamp(p, after)
    requires k <= |line + after| && StampAt(p, (line + after)[k..])
    ensures k == 1
  {
    StampInLine(p, line, after, k);
    SliceOfDrop(line + after, k, |p.phrase|);
    assert (line + after)[k..k + |p.phrase|][0] == (line + after)[k] == line[k];
  }

  lemma StampInLine(p: Syntax, line: string, after: string, k: nat)
    requires NoStamp(p, after) && k <= |line + after| && StampAt(p, (line + after)[k..])
    ensures k < |line|
  {
    assert forall m :: |line| <= m <= |line + after| ==> (line + after)[m..] == after[m - |line|..];
  }

  lemma PhraseBehind(p: Syntax, before: string, rest: string, i: nat)
    requires Sane(p) && NoPhrase(p, before) && (before == "" || IsLineTerminator(before[|before| - 1]))
    requires i <= |before + rest| && OccursAt((before + rest)[i..], p.phrase, 0)
    ensures |before| <= i && i + |p.phrase| <= |before + rest|
  {
    SliceOfDrop(before + rest, i, |p.phrase|);
    PhraseOnOneSide(p, before, rest, i);
  }

  lemma CanonicalHasPhraseSecond(p: Syntax, stamp: string)
    requires Sane(p) && p.phrase[0] !in stamp
    ensures PhraseSecond(p, Canonical(p, stamp))
  {
    PhraseTailDiffers(p);
    forall k | 0 <= k < |Canonical(p, stamp)| && Canonical(p, stamp)[k] == p.phrase[0]
      ensures k == 1
    {
      CanonicalAt(p, stamp, k);
    }
  }

  lemma CanonicalAt(p: Syntax, stamp: string, k: nat)
    requires k < |Canonical(p, stamp)|
    ensures Canonical(p, stamp)[k] ==
            if k == 0 then '_' else if k <= |p.phrase| then p.phrase[k - 1] else if k == |p.phrase| + 1 then ' '
            else if k < |p.phrase| + 2 + |stamp| then stamp[k - |p.phrase| - 2] else '_'
  {
    assert Canonical(p, stamp) == "_" + p.phrase + (" " + stamp + "_");
  }

  lemma PhraseTailDiffers(p: Syntax)
    requires Sane(p)
    ensures forall m :: 1 <= m < |p.phrase| ==> p.phrase[m] != p.phrase[0]
  {
    assert forall m :: 1 <= m < |p.phrase| ==> p.phrase[1..][m - 1] == p.phrase[m];
  }

  lemma NewStampPosition(p: Syntax, before: string, stamp: string, after: string)
    ensures var s := (before + Canonical(p, stamp) + after)[|before| + 1..];
            OccursAt(s, p.phrase, 0) && s[|p.phrase|..] == [' '] + (stamp + "_" + after)
  {
    var s := (before + Canonical(p, stamp) + after)[|before| + 1..];
    assert s == p.phrase + ([' '] + (stamp + "_" + after));
  }

  /** After a blank the scanner is at the digits of the time at once. */
  lemma TimeAfterBlank(p: Syntax, rest: string)
    requires rest != "" && IsDigit(rest[0])
    ensures TimeFollows(p, [' '] + rest) <==> FitsPrefix(p.time, rest)
  {
    var s := [' '] + rest;
    DigitIsPlain(rest[0]);
    assert Skip(Exactly('*'), s) == s;
    assert s[1..] == rest;
    assert Skip(Space, s) == rest == Skip(Space, rest);
  }

  /** The fix makes a document comply if and only if the time it writes is followed up as a time. */
  lemma FixCompliesIff(p: Syntax, content: string, stamp: string)
    requires Sane(p) && p.phrase[0] !in stamp && stamp != "" && IsDigit(stamp[0])
    requires !Compliant(p, content)
    ensures Compliant(p, ApplyStamp(p, content, stamp)) <==>
            FitsPrefix(p.time, stamp + "_" + Around(p, content).1)
  {
    BeforeIsClear(p, content);
    AfterIsClear(p, content);
    StampedIff(p, Around(p, content).0, stamp, Around(p, content).1);
  }

  /** Between a front without the phrase and a rest without a stamp, only the new line can carry one. */
  lemma StampedIff(p: Syntax, before: string, stamp: string, after: string)
    requires Sane(p) && p.phrase[0] !in stamp && stamp != "" && IsDigit(stamp[0])
    requires NoPhrase(p, before) && (before == "" || IsLineTerminator(before[|before| - 1])) && NoStamp(p, after)
    ensures Compliant(p, before + Canonical(p, stamp) + after) <==> FitsPrefix(p.time, stamp + "_" + after)
  {
    var line := Canonical(p, stamp);
    ConcatAssoc(before, line, after);
    NewStampPosition(p, before, stamp, after);
    TimeAfterBlank(p, stamp + "_" + after);
    CanonicalHasPhraseSecond(p, stamp);
    CompliantIffThere(p, before, line, after);
  }

  lemma CompliantIffThere(p: Syntax, before: string, line: string, after: string)
    requires Sane(p) && PhraseSecond(p, line) && line != ""
    requires NoPhrase(p, before) && (before == "" || IsLineTerminator(before[|before| - 1])) && NoStamp(p, after)
    ensures Compliant(p, before + (line + after)) <==> StampAt(p, (before + (line + after))[|before| + 1..])
  {
    var s := before + (line + after);
    CompliantIffStamp(p, s);
    forall i | 0 <= i <= |s| && StampAt(p, s[i..])
      ensures i == |before| + 1
    {
      OnlyTheNewStamp(p, before, line, after, i);
    }
  }

  // ---------- The time that is written ----------

  datatype Clock = Clock(year: nat, month: nat, day: nat, hour: nat, minute: nat)

  function DigitChar(d: nat): (c: char)
    requires d < 10
    ensures IsDigit(c)
  {
    '0' + d as char
  }

  /** `String(n)`. */
  function Decimal(n: nat): (s: string)
    ensures s != "" && forall i :: 0 <= i < |s| ==> IsDigit(s[i])
  {
    if n < 10 then [DigitChar(n)] else Decimal(n / 10) + [DigitChar(n % 10)]
  }

  /** `String(n).padStart(2, "0")`. */
  function Pad(n: nat): string {
    if |Decimal(n)| < 2 then "0" + Decimal(n) else Decimal(n)
  }

  function AfterYear(clock: Clock): string {
    "-" + Pad(clock.month) + "-" + Pad(clock.day) + " " + Pad(clock.hour) + ":" + Pad(clock.minute) + " UTC"
  }

  /** `nowStamp`: the year is not padded. */
  function NowStamp(clock: Clock): string {
    Decimal(clock.year) + AfterYear(clock)
  }

  predicate ValidClock(clock: Clock) {
    1 <= clock.month <= 12 && 1 <= clock.day <= 31 && clock.hour < 24 && clock.minute < 60
  }

  lemma DecimalLength(n: nat)
    ensures |Decimal(n)| == 1 <==> n < 10
    ensures |Decimal(n)| == 2 <==> 10 <= n < 100
    ensures |Decimal(n)| == 3 <==> 100 <= n < 1000
    ensures |Decimal(n)| == 4 <==> 1000 <= n < 10000
  {
    if n >= 10 {
      DecimalLength(n / 10);
    }
  }

  predicate AllDigits(s: string) {
    forall i :: 0 <= i < |s| ==> IsDigit(s[i])
  }

  /** The number that a run of digits is read as. */
  function NumberOf(s: string): nat
    requires AllDigits(s)
  {
    if s == "" then 0
    else
      assert IsDigit(s[|s| - 1]);
      NumberOf(s[..|s| - 1]) * 10 + (s[|s| - 1] as int - '0' as int)
  }

  predicate ReadsAs(s: string, n: nat) {
    s != "" && AllDigits(s) && NumberOf(s) == n
  }

  lemma {:induction false} DecimalReadsBack(n: nat)
    ensures ReadsAs(Decimal(n), n) && (Decimal(n)[0] == '0' ==> n == 0)
  {
    var s := Decimal(n);
    if n >= 10 {
      DecimalReadsBack(n / 10);
      assert s[..|s| - 1] == Decimal(n / 10);
    } else {
      assert s[..0] == "";
    }
  }

  lemma PadReadsBack(n: nat)
    requires n < 100
    ensures |Pad(n)| == 2 && ReadsAs(Pad(n), n)
  {
    PadLength(n);
    DecimalReadsBack(n);
    if n < 10 {
      assert Pad(n)[..1] == "0" && "0"[..0] == "" && Decimal(n)[..0] == "";
    }
  }

  lemma FieldsAt(t: string, a: string, b: string, c: string, d: string)
    requires |a| == |b| == |c| == |d| == 2 && t == "-" + a + "-" + b + " " + c + ":" + d + " UTC"
    ensures |t| == 16 && t[1..3] == a && t[4..6] == b && t[7..9] == c && t[10..12] == d
    ensures t[0] == '-' && t[3] == '-' && t[6] == ' ' && t[9] == ':' && t[12..] == " UTC"
  {
    assert t == ['-', a[0], a[1], '-', b[0], b[1], ' ', c[0], c[1], ':', d[0], d[1], ' ', 'U', 'T', 'C'];
  }

  /** Behind the year: month, day, hour and minute at their places, with their separators and the zone. */
  predicate TellsRest(t: string, clock: Clock) {
    && |t| == 16
    && t[0] == '-' && ReadsAs(t[1..3], clock.month) && t[3] == '-' && ReadsAs(t[4..6], clock.day) && t[6] == ' '
    && ReadsAs(t[7..9], clock.hour) && t[9] == ':' && ReadsAs(t[10..12], clock.minute) && t[12..] == " UTC"
  }

  lemma AfterYearTells(clock: Clock)
    requires ValidClock(clock)
    ensures TellsRest(AfterYear(clock), clock)
  {
    PadReadsBack(clock.month);
    PadReadsBack(clock.day);
    PadReadsBack(clock.hour);
    PadReadsBack(clock.minute);
    FieldsAt(AfterYear(clock), Pad(clock.month), Pad(clock.day), Pad(clock.hour), Pad(clock.minute));
  }

  /** The stamp tells the time: its last sixteen characters hold month, day, hour and minute, and the digits in
      front of them are the year, without leading zeros. */
  lemma StampTellsTime(clock: Clock)
    requires ValidClock(clock)
    ensures var s := NowStamp(clock);
            && |s| > 16 && TellsRest(s[|s| - 16..], clock)
            && ReadsAs(s[..|s| - 16], clock.year) && (s[0] == '0' ==> clock.year == 0)
  {
    var year, tail := Decimal(clock.year), AfterYear(clock);
    DecimalReadsBack(clock.year);
    AfterYearTells(clock);
    assert NowStamp(clock)[..|year|] == year && NowStamp(clock)[|year|..] == tail;
  }

  lemma PadLength(n: nat)
    requires n < 100
    ensures |Pad(n)| == 2 && IsDigit(Pad(n)[0]) && IsDigit(Pad(n)[1])
  {
    DecimalLength(n);
  }

  lemma TwoDigits(a: string, b: string, c: string, d: string)
    requires |a| == |b| == |c| == |d| == 2
    requires IsDigit(a[0]) && IsDigit(a[1]) && IsDigit(b[0]) && IsDigit(b[1])
    requires IsDigit(c[0]) && IsDigit(c[1]) && IsDigit(d[0]) && IsDigit(d[1])
    ensures FitsChain(AfterYearClasses(), "-" + a + "-" + b + " " + c + ":" + d + " UTC")
  {
    assert "-" + a + "-" + b + " " + c + ":" + d + " UTC"
        == ['-', a[0], a[1], '-', b[0], b[1], ' ', c[0], c[1], ':', d[0], d[1], ' ', 'U', 'T', 'C'];
  }

  lemma AfterYearFits(clock: Clock)
    requires ValidClock(clock)
    ensures FitsChain(AfterYearClasses(), AfterYear(clock))
  {
    PadLength(clock.month);
    PadLength(clock.day);
    PadLength(clock.hour);
    PadLength(clock.minute);
    TwoDigits(Pad(clock.month), Pad(clock.day), Pad(clock.hour), Pad(clock.minute));
  }

  lemma FitsConcat(first: seq<CharClass>, second: seq<CharClass>, a: string, b: string)
    requires |a| == |first|
    ensures FitsChain(first + second, a + b) <==> FitsChain(first, a) && FitsChain(second, b)
  {
    assert forall i :: 0 <= i < |a| ==> (a + b)[i] == a[i] && (first + second)[i] == first[i];
    assert |b| == |second| ==>
        forall i :: 0 <= i < |b| ==> (a + b)[|a| + i] == b[i] && (first + second)[|a| + i] == second[i];
  }

  lemma FitsPrefixAt(classes: seq<CharClass>, s: string, i: nat)
    requires FitsPrefix(classes, s) && i < |classes|
    ensures InClass(classes[i], s[i])
  {
    assert s[..|classes|][i] == s[i];
  }

  lemma FourDigitsFit(classes: seq<CharClass>, year: string, tail: string, rest: string)
    requires |classes| > 4 && (forall i :: 0 <= i < 4 ==> classes[i] == Digit) && |year| == 4
    requires (forall i :: 0 <= i < 4 ==> IsDigit(year[i])) && FitsChain(classes[4..], tail)
    ensures FitsPrefix(classes, year + tail + rest)
  {
    assert (year + tail + rest)[..|classes|] == year + tail;
    assert classes == classes[..4] + classes[4..];
    FitsConcat(classes[..4], classes[4..], year, tail);
  }

  lemma OtherYearsDoNotFit(classes: seq<CharClass>, year: string, tail: string, rest: string)
    requires |classes| > 4 && (forall i :: 0 <= i < 4 ==> classes[i] == Digit) && classes[4] == Exactly('-')
    requires |year| != 4 && (forall i :: 0 <= i < |year| ==> IsDigit(year[i])) && tail != "" && tail[0] == '-'
    ensures !FitsPrefix(classes, year + tail + rest)
  {
    var s, i := year + tail + rest, if |year| < 4 then |year| else 4;
    assert s[i] == if |year| < 4 then tail[0] else year[4];
    assert !InClass(classes[i], s[i]);
    if FitsPrefix(classes, s) {
      FitsPrefixAt(classes, s, i);
    }
  }

  /** The written time has the form that `STAMP_RE` asks for exactly when the year has four digits. */
  lemma TimeFitsIffFourDigits(p: Syntax, clock: Clock, rest: string)
    requires LikeDocs(p) && ValidClock(clock)
    ensures FitsPrefix(p.time, NowStamp(clock) + rest) <==> 1000 <= clock.year <= 9999
  {
    var year, tail := Decimal(clock.year), AfterYear(clock);
    DecimalLength(clock.year);
    AfterYearFits(clock);
    assert p.time[4] == p.time[4..][0] == AfterYearClasses()[0];
    assert InClass(AfterYearClasses()[0], tail[0]);
    if |year| == 4 {
      FourDigitsFit(p.time, year, tail, rest);
    } else {
      OtherYearsDoNotFit(p.time, year, tail, rest);
    }
  }

  lemma CharsAvoid(classes: seq<CharClass>, s: string, c: char)
    requires FitsChain(classes, s) && forall i :: 0 <= i < |classes| ==> !InClass(classes[i], c)
    ensures c !in s
  {
    forall i | 0 <= i < |s|
      ensures s[i] != c
    {
      assert InClass(classes[i], s[i]);
    }
  }

  lemma ClassesAvoidL()
    ensures forall i :: 0 <= i < |AfterYearClasses()| ==> !InClass(AfterYearClasses()[i], 'L')
  {
  }

  lemma NoLetterL(classes: seq<CharClass>, clock: Clock)
    requires ValidClock(clock) && classes == AfterYearClasses()
    ensures 'L' !in AfterYear(clock)
  {
    var tail := AfterYear(clock);
    AfterYearFits(clock);
    ClassesAvoidL();
    CharsAvoid(classes, tail, 'L');
  }

  lemma StampChars(clock: Clock)
    requires ValidClock(clock)
    ensures NowStamp(clock) != "" && IsDigit(NowStamp(clock)[0]) && 'L' !in NowStamp(clock)
  {
    NoLetterL(AfterYearClasses(), clock);
    var year := Decimal(clock.year);
    assert NowStamp(clock)[0] == year[0];
    assert 'L' !in year;
  }

  // ---------- The script ----------

  /** Fixing makes a document comply if and only if the clock shows a four-digit year. */
  lemma FixCompliesIffFourDigits(p: Syntax, content: string, clock: Clock)
    requires LikeDocs(p) && ValidClock(clock) && !Compliant(p, content)
    ensures Compliant(p, FixedDoc(p, content, NowStamp(clock))) <==> 1000 <= clock.year <= 9999
  {
    StampChars(clock);
    var stamp := NowStamp(clock);
    var rest := "_" + Around(p, content).1;
    FixCompliesIff(p, content, stamp);
    TimeFitsIffFourDigits(p, clock, rest);
    assert stamp + rest == stamp + "_" + Around(p, content).1;
  }

  predicate FourDigits(clock: Clock) {
    ValidClock(clock) && 1000 <= clock.year <= 9999
  }

  /** With a four-digit year every document complies after the fix, and a second fix changes nothing,
      whatever time it would write. A document that complies is never rewritten. */
  lemma FixedDocsStayFixed(p: Syntax, content: string, clock: Clock, later: string)
    requires LikeDocs(p) && FourDigits(clock)
    ensures var fixed := FixedDoc(p, content, NowStamp(clock));
            && Compliant(p, fixed)
            && FixedDoc(p, fixed, later) == fixed
            && (Compliant(p, content) <==> fixed == content)
  {
    if !Compliant(p, content) {
      FixCompliesIffFourDigits(p, content, clock);
    }
  }

  /** The documents without a stamp, in the order of the list. */
  ghost function Violations(p: Syntax, files: map<string, string>, docs: seq<string>): seq<string>
    requires forall i :: 0 <= i < |docs| ==> docs[i] in files
  {
    if docs == [] then []
    else
      var init, last := docs[..|docs| - 1], docs[|docs| - 1];
      Violations(p, files, init) + (if Compliant(p, files[last]) then [] else [last])
  }

  ghost function Fails(p: Syntax, files: map<string, string>): string -> bool {
    (file: string) => file !in files || !Compliant(p, files[file])
  }

  /** The check reports the documents without a stamp, each as often as it is listed, in the order of the list. */
  lemma {:induction false} ViolationsSelect(p: Syntax, files: map<string, string>, docs: seq<string>)
    requires forall i :: 0 <= i < |docs| ==> docs[i] in files
    ensures IsSelection(docs, Violations(p, files, docs), Fails(p, files))
  {
    if docs == [] {
      SelectNothing(Fails(p, files));
    } else {
      var init, last := docs[..|docs| - 1], docs[|docs| - 1];
      ViolationsSelect(p, files, init);
      SelectLast(init, Violations(p, files, init), last, Fails(p, files));
      assert init + [last] == docs;
    }
  }

  ghost function FixedFiles(p: Syntax, files: map<string, string>, docs: seq<string>, stamp: string):
      map<string, string>
  {
    map f | f in files :: if f in docs then FixedDoc(p, files[f], stamp) else files[f]
  }

  /** After `--fix` the check reports nothing, and a second `--fix` leaves all files as they are. */
  lemma FixedFilesPass(p: Syntax, files: map<string, string>, docs: seq<string>, clock: Clock, later: string)
    requires LikeDocs(p) && FourDigits(clock) && forall i :: 0 <= i < |docs| ==> docs[i] in files
    ensures var fixed := FixedFiles(p, files, docs, NowStamp(clock));
            Violations(p, fixed, docs) == [] && FixedFiles(p, fixed, docs, later) == fixed
  {
    var fixed := FixedFiles(p, files, docs, NowStamp(clock));
    forall f | f in files
      ensures f in docs ==> Compliant(p, fixed[f])
      ensures f in docs ==> FixedDoc(p, fixed[f], later) == fixed[f]
    {
      FixedDocsStayFixed(p, files[f], clock, later);
    }
    NoViolations(p, fixed, docs);
    FixedStay(p, fixed, docs, later);
  }

  lemma FixedStay(p: Syntax, files: map<string, string>, docs: seq<string>, stamp: string)
    requires forall f :: f in files && f in docs ==> FixedDoc(p, files[f], stamp) == files[f]
    ensures FixedFiles(p, files, docs, stamp) == files
  {
  }

  lemma {:induction false} NoViolations(p: Syntax, files: map<string, string>, docs: seq<string>)
    requires forall i :: 0 <= i < |docs| ==> docs[i] in files && Compliant(p, files[docs[i]])
    ensures Violations(p, files, docs) == []
  {
    if docs != [] {
      NoViolations(p, files, docs[..|docs| - 1]);
    }
  }

  /** Only listed documents without a stamp are written. */
  lemma FixedFilesSay(p: Syntax, files: map<string, string>, docs: seq<string>, stamp: string)
    ensures var fixed := FixedFiles(p, files, docs, stamp);
            && fixed.Keys == files.Keys
            && (forall f :: f in files && (f !in docs || Compliant(p, files[f])) ==> fixed[f] == files[f])
            && (forall f :: f in files && f in docs && !Compliant(p, files[f]) ==>
                  fixed[f] == ApplyStamp(p, files[f], stamp))
  {
  }

  lemma FixNone(p: Syntax, files: map<string, string>, stamp: string)
    ensures FixedFiles(p, files, [], stamp) == files
  {
  }

  lemma FixOneMore(p: Syntax, files: map<string, string>, seen: seq<string>, file: string, stamp: string)
    requires file in files && file !in seen
    ensures var now := FixedFiles(p, files, seen, stamp);
            && file in now && now[file] == files[file]
            && FixedFiles(p, files, seen + [file], stamp) == now[file := FixedDoc(p, files[file], stamp)]
  {
  }

  class DocsCheck {
    const syntax: Syntax
    var files: map<string, string>

    ghost predicate Valid() {
      LikeDocs(syntax)
    }

    constructor (syntax: Syntax, files: map<string, string>)
      requires LikeDocs(syntax)
      ensures Valid() && this.syntax == syntax && this.files == files
    {
      this.syntax, this.files := syntax, files;
    }

    /** The run without `--fix`; the script fails when a violation is reported. */
    method Check(docs: seq<string>) returns (violations: seq<string>)
      requires Valid() && forall i :: 0 <= i < |docs| ==> docs[i] in files
      ensures violations == Violations(syntax, files, docs)
    {
      violations := [];
      for k := 0 to |docs|
        invariant violations == Violations(syntax, files, docs[..k])
      {
        assert docs[..k + 1][..k] == docs[..k];
        var ok := TestStamp(syntax, files[docs[k]]);
        if !ok {
          violations := violations + [docs[k]];
        }
      }
      assert docs[..|docs|] == docs;
    }

    method FixOne(file: string, stamp: string)
      requires Valid() && file in files
      modifies this
      ensures files == old(files)[file := FixedDoc(syntax, old(files)[file], stamp)]
    {
      var ok := TestStamp(syntax, files[file]);
      if !ok {
        files := files[file := ApplyStamp(syntax, files[file], stamp)];
      }
    }

    method FixNext(ghost start: map<string, string>, ghost seen: seq<string>, file: string, stamp: string)
      requires Valid() && file in start && file !in seen && files == FixedFiles(syntax, start, seen, stamp)
      modifies this
      ensures files == FixedFiles(syntax, start, seen + [file], stamp)
    {
      FixOneMore(syntax, start, seen, file, stamp);
      FixOne(file, stamp);
    }

    /** The run with `--fix`; no file is listed twice. */
    method Fix(docs: seq<string>, stamp: string)
      requires Valid() && forall i :: 0 <= i < |docs| ==> docs[i] in files
      requires forall i, j :: 0 <= i < j < |docs| ==> docs[i] != docs[j]
      modifies this
      ensures files == FixedFiles(syntax, old(files), docs, stamp) && files.Keys == old(files).Keys
      ensures forall f :: f in files && (f !in docs || Compliant(syntax, old(files)[f])) ==> files[f] == old(files)[f]
      ensures forall f :: f in files && f in docs && !Compliant(syntax, old(files)[f]) ==>
                files[f] == ApplyStamp(syntax, old(files)[f], stamp)
    {
      FixedFilesSay(syntax, files, docs, stamp);
      FixAll(docs, stamp);
    }

    method FixAll(docs: seq<string>, stamp: string)
      requires Valid() && forall i :: 0 <= i < |docs| ==> docs[i] in files
      requires forall i, j :: 0 <= i < j < |docs| ==> docs[i] != docs[j]
      modifies this
      ensures files == FixedFiles(syntax, old(files), docs, stamp)
    {
      FixNone(syntax, files, stamp);
      assert docs[..0] == [];
      for k := 0 to |docs|
        invariant files == FixedFiles(syntax, old(files), docs[..k], stamp)
      {
        FixNext(old(files), docs[..k], docs[k], stamp);
        assert docs[..k + 1] == docs[..k] + [docs[k]];
      }
      assert docs[..|docs|] == docs;
    }
  }
}
