/** The route-coverage audit (scripts/audit-route-coverage.ts): paths, static runs, and wired endpoints. */
module RouteAudit {
  import opened Sequences
  import opened Text

  // ---------- Normalising a path ----------

  function NonEmpty(parts: seq<string>): seq<string> {
    if parts == [] then [] else (if parts[0] == "" then [] else [parts[0]]) + NonEmpty(parts[1..])
  }

  /** `replace(/\/+/g, "/")`: every run of slashes becomes one slash. */
  function Collapse(s: string): string {
    if s == "" then ""
    else if |s| > 1 && s[0] == '/' && s[1] == '/' then Collapse(s[1..])
    else [s[0]] + Collapse(s[1..])
  }

  /** `replace(/(?!^)\/$/, "")`: a final slash goes, unless it is the first character. */
  function DropFinalSlash(s: string): string {
    if |s| > 1 && s[|s| - 1] == '/' then s[..|s| - 1] else s
  }

  function NormalizePath(parts: seq<string>): string {
    DropFinalSlash(Collapse("/" + Join(NonEmpty(parts), '/')))
  }

  /** The non-empty segments of a path, and of several parts one after the other. */
  function Segments(path: string): seq<string> {
    NonEmpty(Split(path, '/'))
  }

  function AllSegments(parts: seq<string>): seq<string> {
    if parts == [] then [] else Segments(parts[0]) + AllSegments(parts[1..])
  }

  /** The printed form of a list of segments. */
  function Canonical(segments: seq<string>): string {
    "/" + Join(segments, '/')
  }

  predicate AreSegments(segments: seq<string>) {
    forall i :: 0 <= i < |segments| ==> segments[i] != "" && '/' !in segments[i]
  }

  lemma {:induction false} NonEmptyConcat(a: seq<string>, b: seq<string>)
    ensures NonEmpty(a + b) == NonEmpty(a) + NonEmpty(b)
  {
    if a == [] {
      assert a + b == b;
    } else {
      assert (a + b)[1..] == a[1..] + b && (a + b)[0] == a[0];
      NonEmptyConcat(a[1..], b);
      ConcatAssoc(if a[0] == "" then [] else [a[0]], NonEmpty(a[1..]), NonEmpty(b));
    }
  }

  lemma SegmentsConcat(a: string, b: string)
    ensures Segments(a + ['/'] + b) == Segments(a) + Segments(b)
  {
    SplitConcat(a, '/', b);
    NonEmptyConcat(Split(a, '/'), Split(b, '/'));
  }

  lemma {:induction false} NonEmptyAreSegments(parts: seq<string>)
    requires forall i :: 0 <= i < |parts| ==> '/' !in parts[i]
    ensures AreSegments(NonEmpty(parts))
  {
    if parts != [] {
      NonEmptyAreSegments(parts[1..]);
    }
  }

  lemma SegmentsAreSegments(path: string)
    ensures AreSegments(Segments(path))
  {
    SplitPieces(path, '/');
    NonEmptyAreSegments(Split(path, '/'));
  }

  lemma {:induction false} AllSegmentsAreSegments(parts: seq<string>)
    ensures AreSegments(AllSegments(parts))
  {
    if parts != [] {
      SegmentsAreSegments(parts[0]);
      AllSegmentsAreSegments(parts[1..]);
    }
  }

  lemma {:induction false} NonEmptyKeeps(parts: seq<string>)
    requires forall i :: 0 <= i < |parts| ==> parts[i] != ""
    ensures NonEmpty(parts) == parts
  {
    if parts != [] {
      NonEmptyKeeps(parts[1..]);
    }
  }

  /** Splitting the printed form gives the segments back. */
  lemma SegmentsOfCanonical(segments: seq<string>)
    requires AreSegments(segments)
    ensures Segments(Canonical(segments)) == segments
  {
    var path := Canonical(segments);
    assert path == "" + ['/'] + Join(segments, '/');
    SegmentsConcat("", Join(segments, '/'));
    assert Segments("") == [];
    if segments != [] {
      SplitJoin(segments, '/');
      NonEmptyKeeps(segments);
    }
  }

  lemma {:induction false} SegmentsOfJoined(parts: seq<string>)
    ensures Segments(Join(NonEmpty(parts), '/')) == AllSegments(parts)
  {
    if parts != [] {
      var rest := NonEmpty(parts[1..]);
      SegmentsOfJoined(parts[1..]);
      assert Segments("") == [];
      if parts[0] == "" {
        assert [] + rest == rest;
      } else if rest == [] {
        assert NonEmpty(parts) == [parts[0]];
        assert Segments(parts[0]) + [] == Segments(parts[0]);
      } else {
        assert NonEmpty(parts)[1..] == rest;
        SegmentsConcat(parts[0], Join(rest, '/'));
      }
    }
  }

  predicate EndsInSlash(s: string) {
    s != "" && s[|s| - 1] == '/'
  }

  lemma {:induction false} CollapsePrefix(head: string, tail: string)
    requires '/' !in head && tail != "" && tail[0] == '/'
    ensures Collapse(head + tail) == head + Collapse(tail)
  {
    if head == "" {
      assert head + tail == tail;
    } else {
      assert head[0] in head;
      assert (head + tail)[1..] == head[1..] + tail;
      CollapsePrefix(head[1..], tail);
    }
  }

  lemma {:induction false} CollapsePlain(s: string)
    requires '/' !in s
    ensures Collapse(s) == s
  {
    if s != "" {
      assert s[0] in s;
      CollapsePlain(s[1..]);
    }
  }

  function FirstSlash(s: string): (k: nat)
    ensures k <= |s| && '/' !in s[..k] && (k < |s| ==> s[k] == '/')
  {
    if s == "" || s[0] == '/' then 0 else 1 + FirstSlash(s[1..])
  }

  lemma NonEmptyOne(s: string)
    ensures NonEmpty([s]) == if s == "" then [] else [s]
  {
    assert [s][1..] == [] && NonEmpty([]) == [];
    assert [s] + [] == [s];
  }

  lemma PlainSegments(s: string)
    requires '/' !in s
    ensures Segments(s) == if s == "" then [] else [s]
  {
    SplitPlain(s, '/');
    NonEmptyOne(s);
  }

  lemma SegmentsAfterWord(head: string, rest: string)
    requires '/' !in head
    ensures Segments(head + ['/'] + rest) == (if head == "" then [] else [head]) + Segments(rest)
  {
    SegmentsConcat(head, rest);
    PlainSegments(head);
  }

  lemma SlashSplit(s: string) returns (head: string, rest: string)
    requires FirstSlash(s) < |s|
    ensures s == head + ['/'] + rest && '/' !in head && |head| == FirstSlash(s)
  {
    head, rest := s[..FirstSlash(s)], s[FirstSlash(s) + 1..];
  }

  /** The slash that is left at the end when the path has segments and ends in slashes. */
  function LeftOver(segments: seq<string>, s: string): string {
    if segments != [] && EndsInSlash(s) then "/" else ""
  }

  /** What collapsing does to a path: its segments, with a slash left over where the path ended in slashes. */
  lemma {:induction false} CollapsedForm(s: string)
    ensures Collapse("/" + s) == Canonical(Segments(s)) + LeftOver(Segments(s), s)
    decreases |s|
  {
    if FirstSlash(s) == |s| {
      assert s[..|s|] == s;
      PlainSegments(s);
      CollapseAlone(s);
      assert Canonical([s]) == "/" + s;
    } else {
      var head, rest := SlashSplit(s);
      SegmentsAfterWord(head, rest);
      CollapsedForm(rest);
      NoSegmentsEndsInSlash(rest);
      PlainSegments("");
      if head == "" {
        LeadingSlash(s, rest, Segments(rest));
      } else {
        LeadingSegment(s, head, rest, Segments(rest));
      }
    }
  }

  lemma CollapseSlash(s: string)
    requires s == "" || s[0] != '/'
    ensures Collapse("/" + s) == "/" + Collapse(s)
  {
    assert ("/" + s)[1..] == s;
  }

  lemma CollapseAlone(head: string)
    requires '/' !in head
    ensures Collapse("/" + head) == "/" + head && !EndsInSlash(head)
  {
    assert head != "" ==> head[0] in head && head[|head| - 1] in head;
    CollapsePlain(head);
    CollapseSlash(head);
  }

  lemma CollapseUnder(head: string, tail: string)
    requires head != "" && '/' !in head && tail != "" && tail[0] == '/'
    ensures Collapse("/" + (head + tail)) == "/" + head + Collapse(tail)
  {
    assert (head + tail)[0] == head[0] && head[0] in head;
    CollapseSlash(head + tail);
    CollapsePrefix(head, tail);
    ConcatAssoc("/", head, Collapse(tail));
  }

  /** Only the rest decides whether the text behind a slash ends in one. */
  lemma EndsBehind(head: string, rest: string)
    ensures EndsInSlash(head + ['/'] + rest) <==> rest == "" || EndsInSlash(rest)
  {
  }

  lemma LeadingSlash(s: string, rest: string, segments: seq<string>)
    requires s == "" + ['/'] + rest && (rest == "" ==> segments == [])
    requires Collapse("/" + rest) == Canonical(segments) + LeftOver(segments, rest)
    ensures Collapse("/" + s) == Canonical([] + segments) + LeftOver([] + segments, s)
  {
    assert ("/" + s)[1..] == "/" + rest;
    assert [] + segments == segments;
  }

  lemma LeadingSegment(s: string, head: string, rest: string, segments: seq<string>)
    requires head != "" && '/' !in head && s == head + ['/'] + rest
    requires (rest == "" ==> segments == []) && (segments == [] ==> rest == "" || EndsInSlash(rest))
    requires Collapse("/" + rest) == Canonical(segments) + LeftOver(segments, rest)
    ensures Collapse("/" + s) == Canonical([head] + segments) + LeftOver([head] + segments, s)
  {
    ConcatAssoc(head, "/", rest);
    CollapseUnder(head, "/" + rest);
    EndsBehind(head, rest);
    CanonicalUnder(head, segments, LeftOver(segments, rest), LeftOver([head] + segments, s));
  }

  lemma CanonicalUnder(head: string, segments: seq<string>, left: string, left': string)
    requires if segments == [] then left == "" && left' == "/" else left == left'
    ensures "/" + head + (Canonical(segments) + left) == Canonical([head] + segments) + left'
  {
    CanonicalCons(head, segments);
  }

  lemma CanonicalCons(head: string, segments: seq<string>)
    ensures Canonical([head] + segments) == "/" + head + (if segments == [] then "" else Canonical(segments))
  {
    assert ([head] + segments)[1..] == segments;
  }

  /** A path without segments consists of slashes. */
  lemma {:induction false} NoSegmentsEndsInSlash(s: string)
    ensures Segments(s) == [] ==> s == "" || EndsInSlash(s)
    decreases |s|
  {
    if FirstSlash(s) == |s| {
      assert s[..|s|] == s;
      PlainSegments(s);
    } else {
      var head, rest := SlashSplit(s);
      SegmentsAfterWord(head, rest);
      NoSegmentsEndsInSlash(rest);
    }
  }

  lemma {:induction false} JoinEnd(segments: seq<string>)
    requires segments != [] && AreSegments(segments)
    ensures Join(segments, '/') != "" && !EndsInSlash(Join(segments, '/'))
  {
    if |segments| == 1 {
      assert segments[0][|segments[0]| - 1] in segments[0];
    } else {
      JoinEnd(segments[1..]);
    }
  }

  /** Normalising prints the canonical form of all non-empty segments of the parts. */
  lemma NormalizeIsCanonical(parts: seq<string>)
    ensures NormalizePath(parts) == Canonical(AllSegments(parts))
  {
    var joined, segments := Join(NonEmpty(parts), '/'), AllSegments(parts);
    SegmentsOfJoined(parts);
    CollapsedForm(joined);
    AllSegmentsAreSegments(parts);
    if segments != [] {
      JoinEnd(segments);
    }
  }

  /** Splitting a normalised path gives exactly the segments of its parts. */
  lemma NormalizeKeepsSegments(parts: seq<string>)
    ensures Segments(NormalizePath(parts)) == AllSegments(parts)
  {
    NormalizeIsCanonical(parts);
    AllSegmentsAreSegments(parts);
    SegmentsOfCanonical(AllSegments(parts));
  }

  /** Two lists of parts normalise to the same path exactly when they have the same segments. */
  lemma NormalizeEqualIff(a: seq<string>, b: seq<string>)
    ensures NormalizePath(a) == NormalizePath(b) <==> AllSegments(a) == AllSegments(b)
  {
    NormalizeKeepsSegments(a);
    NormalizeKeepsSegments(b);
    NormalizeIsCanonical(a);
    NormalizeIsCanonical(b);
  }

  lemma NormalizeIdempotent(parts: seq<string>)
    ensures NormalizePath([NormalizePath(parts)]) == NormalizePath(parts)
  {
    NormalizeKeepsSegments(parts);
    var path := NormalizePath(parts);
    assert AllSegments([path]) == Segments(path) + AllSegments([]);
    NormalizeEqualIff([path], parts);
  }

  function NormalizeEach(parts: seq<string>): seq<string> {
    if parts == [] then [] else [NormalizePath([parts[0]])] + NormalizeEach(parts[1..])
  }

  lemma {:induction false} EachKeepsSegments(parts: seq<string>)
    ensures AllSegments(NormalizeEach(parts)) == AllSegments(parts)
  {
    if parts != [] {
      NormalizeKeepsSegments([parts[0]]);
      assert AllSegments([parts[0]]) == Segments(parts[0]) + AllSegments([]);
      EachKeepsSegments(parts[1..]);
    }
  }

  /** Normalising the parts first never changes the joined path. */
  lemma NormalizePartsFirst(parts: seq<string>)
    ensures NormalizePath(NormalizeEach(parts)) == NormalizePath(parts)
  {
    EachKeepsSegments(parts);
    NormalizeEqualIff(NormalizeEach(parts), parts);
  }

  // ---------- Static runs ----------

  predicate IsParam(segment: string) {
    segment != "" && segment[0] == ':'
  }

  predicate AllParams(segments: seq<string>) {
    forall i :: 0 <= i < |segments| ==> IsParam(segments[i])
  }

  predicate AllStatic(segments: seq<string>) {
    forall i :: 0 <= i < |segments| ==> !IsParam(segments[i])
  }

  /** The blocks of neighbouring static segments. */
  function Runs(segments: seq<string>): (runs: seq<seq<string>>)
    ensures segments != [] && !IsParam(segments[0]) ==> runs != []
  {
    if segments == [] then []
    else if IsParam(segments[0]) then Runs(segments[1..])
    else if |segments| > 1 && !IsParam(segments[1]) then
      var rest := Runs(segments[1..]);
      [[segments[0]] + rest[0]] + rest[1..]
    else [[segments[0]]] + Runs(segments[1..])
  }

  /** Gaps and runs in turn, starting and ending with a gap. */
  function Interleave(gaps: seq<seq<string>>, runs: seq<seq<string>>): seq<string>
    requires |gaps| == |runs| + 1
  {
    if runs == [] then gaps[0] else gaps[0] + runs[0] + Interleave(gaps[1..], runs[1..])
  }

  /** The runs are maximal static blocks: non-empty, and with parameters, at least one of them, between any two. */
  predicate Decomposes(segments: seq<string>, runs: seq<seq<string>>, gaps: seq<seq<string>>) {
    && |gaps| == |runs| + 1
    && segments == Interleave(gaps, runs)
    && (forall i :: 0 <= i < |runs| ==> runs[i] != [] && AllStatic(runs[i]))
    && (forall i :: 0 <= i < |gaps| ==> AllParams(gaps[i]))
    && (forall i :: 0 < i < |runs| ==> gaps[i] != [])
  }

  lemma {:induction false} SkipParams(gap: seq<string>, rest: seq<string>)
    requires AllParams(gap)
    ensures Runs(gap + rest) == Runs(rest)
  {
    if gap == [] {
      assert gap + rest == rest;
    } else {
      assert (gap + rest)[1..] == gap[1..] + rest;
      SkipParams(gap[1..], rest);
    }
  }

  lemma {:induction false} TakeRun(run: seq<string>, rest: seq<string>)
    requires run != [] && AllStatic(run) && (rest == [] || IsParam(rest[0]))
    ensures Runs(run + rest) == [run] + Runs(rest)
  {
    var s := run + rest;
    assert s[1..] == run[1..] + rest;
    assert run == [run[0]] + run[1..];
    if |run| > 1 {
      TakeRun(run[1..], rest);
      assert s[1] == run[1];
      assert ([run[1..]] + Runs(rest))[1..] == Runs(rest);
    } else {
      assert s[1..] == rest;
      assert run == [run[0]];
      assert rest != [] ==> s[1] == rest[0];
    }
  }

  /** The runs are the only maximal static blocks ... */
  lemma {:induction false} RunsUnique(segments: seq<string>, runs: seq<seq<string>>, gaps: seq<seq<string>>)
    requires Decomposes(segments, runs, gaps)
    ensures runs == Runs(segments)
    decreases |runs|
  {
    if runs == [] {
      SkipParams(gaps[0], []);
      assert gaps[0] + [] == gaps[0];
    } else {
      var rest := Interleave(gaps[1..], runs[1..]);
      var tail := runs[0] + rest;
      assert segments == gaps[0] + tail;
      SkipParams(gaps[0], tail);
      TailDecomposes(runs, gaps);
      RestStartsWithParam(runs, gaps);
      TakeRun(runs[0], rest);
      RunsUnique(rest, runs[1..], gaps[1..]);
    }
  }

  lemma TailDecomposes(runs: seq<seq<string>>, gaps: seq<seq<string>>)
    requires runs != [] && |gaps| == |runs| + 1 && Decomposes(Interleave(gaps, runs), runs, gaps)
    ensures Decomposes(Interleave(gaps[1..], runs[1..]), runs[1..], gaps[1..])
  {
    assert forall i :: 0 <= i < |runs[1..]| ==> runs[1..][i] == runs[i + 1];
    assert forall i :: 0 <= i < |gaps[1..]| ==> gaps[1..][i] == gaps[i + 1];
  }

  lemma RestStartsWithParam(runs: seq<seq<string>>, gaps: seq<seq<string>>)
    requires runs != [] && |gaps| == |runs| + 1 && Decomposes(Interleave(gaps, runs), runs, gaps)
    ensures var rest := Interleave(gaps[1..], runs[1..]); rest == [] || IsParam(rest[0])
  {
    var rest := Interleave(gaps[1..], runs[1..]);
    assert gaps[1..][0] == gaps[1];
    if |runs| > 1 {
      assert rest[0] == gaps[1][0];
    }
  }

  /** ... and they do decompose the path. */
  lemma {:induction false} RunsDecompose(segments: seq<string>) returns (gaps: seq<seq<string>>)
    ensures Decomposes(segments, Runs(segments), gaps)
    ensures segments != [] && !IsParam(segments[0]) ==> gaps[0] == []
  {
    if segments == [] {
      gaps := [[]];
    } else {
      var head, rest := segments[0], segments[1..];
      var inner := RunsDecompose(rest);
      var runs, before := Runs(segments), Runs(rest);
      assert segments == [head] + rest;
      RunsCons(head, rest);
      if IsParam(head) {
        gaps := [[head] + inner[0]] + inner[1..];
        ExtendGap(head, rest, before, inner);
      } else if rest != [] && !IsParam(rest[0]) {
        gaps := inner;
        ExtendRun(head, rest, before, inner);
      } else {
        gaps := [[]] + inner;
        NewRun(head, rest, before, inner);
      }
    }
  }

  lemma ExtendGap(head: string, rest: seq<string>, runs: seq<seq<string>>, gaps: seq<seq<string>>)
    requires IsParam(head) && Decomposes(rest, runs, gaps)
    ensures Decomposes([head] + rest, runs, [[head] + gaps[0]] + gaps[1..])
  {
    var gaps' := [[head] + gaps[0]] + gaps[1..];
    assert gaps'[1..] == gaps[1..];
    if runs != [] {
      assert [head] + (gaps[0] + runs[0] + Interleave(gaps[1..], runs[1..]))
          == ([head] + gaps[0]) + runs[0] + Interleave(gaps[1..], runs[1..]);
    }
  }

  lemma ExtendRun(head: string, rest: seq<string>, runs: seq<seq<string>>, gaps: seq<seq<string>>)
    requires !IsParam(head) && Decomposes(rest, runs, gaps) && runs != [] && gaps[0] == []
    ensures Decomposes([head] + rest, [[head] + runs[0]] + runs[1..], gaps)
  {
    var runs' := [[head] + runs[0]] + runs[1..];
    assert runs'[1..] == runs[1..];
    assert [head] + (gaps[0] + runs[0] + Interleave(gaps[1..], runs[1..]))
        == gaps[0] + ([head] + runs[0]) + Interleave(gaps[1..], runs[1..]);
    assert forall i :: 1 <= i < |runs'| ==> runs'[i] == runs[i];
  }

  lemma NewRun(head: string, rest: seq<string>, runs: seq<seq<string>>, gaps: seq<seq<string>>)
    requires !IsParam(head) && Decomposes(rest, runs, gaps) && (rest == [] || IsParam(rest[0]))
    ensures Decomposes([head] + rest, [[head]] + runs, [[]] + gaps)
  {
    var runs', gaps' := [[head]] + runs, [[]] + gaps;
    assert gaps'[1..] == gaps && runs'[1..] == runs;
    assert [head] + rest == [] + [head] + Interleave(gaps, runs);
    if runs != [] {
      RestIsLong(rest, runs, gaps);
      GapBefore(rest, runs, gaps);
    }
    assert forall i :: 1 <= i < |gaps'| ==> gaps'[i] == gaps[i - 1];
    assert forall i :: 1 <= i < |runs'| ==> runs'[i] == runs[i - 1];
  }

  lemma RestIsLong(segments: seq<string>, runs: seq<seq<string>>, gaps: seq<seq<string>>)
    requires Decomposes(segments, runs, gaps) && runs != []
    ensures segments != []
  {
    assert segments == gaps[0] + runs[0] + Interleave(gaps[1..], runs[1..]);
  }

  lemma FirstOf(gap: seq<string>, run: seq<string>, rest: seq<string>)
    requires run != []
    ensures (gap + run + rest)[0] == if gap == [] then run[0] else gap[0]
  {
  }

  lemma GapBefore(segments: seq<string>, runs: seq<seq<string>>, gaps: seq<seq<string>>)
    requires Decomposes(segments, runs, gaps) && runs != []
    requires segments != [] && IsParam(segments[0])
    ensures gaps[0] != []
  {
    FirstOf(gaps[0], runs[0], Interleave(gaps[1..], runs[1..]));
  }

  function Statics(segments: seq<string>): seq<string> {
    if segments == [] then [] else (if IsParam(segments[0]) then [] else [segments[0]]) + Statics(segments[1..])
  }

  function Flatten(runs: seq<seq<string>>): seq<string> {
    if runs == [] then [] else runs[0] + Flatten(runs[1..])
  }

  /** Put together, the runs are the static segments of the path in order. */
  lemma {:induction false} RunsAreStatics(segments: seq<string>)
    ensures Flatten(Runs(segments)) == Statics(segments)
  {
    if segments != [] {
      RunsAreStatics(segments[1..]);
      if !IsParam(segments[0]) {
        if |segments| > 1 && !IsParam(segments[1]) {
          FlattenExtended(segments[0], Runs(segments[1..]));
        } else {
          FlattenStarted(segments[0], Runs(segments[1..]));
        }
      }
    }
  }

  lemma FlattenExtended(head: string, runs: seq<seq<string>>)
    requires runs != []
    ensures Flatten([[head] + runs[0]] + runs[1..]) == [head] + Flatten(runs)
  {
    assert ([[head] + runs[0]] + runs[1..])[1..] == runs[1..];
    ConcatAssoc([head], runs[0], Flatten(runs[1..]));
  }

  lemma FlattenStarted(head: string, runs: seq<seq<string>>)
    ensures Flatten([[head]] + runs) == [head] + Flatten(runs)
  {
    assert ([[head]] + runs)[1..] == runs;
  }

  /** The exact characterisation: a list of blocks is the list of runs if and only if it decomposes the path. */
  lemma RunsIffDecompose(segments: seq<string>, runs: seq<seq<string>>)
    ensures runs == Runs(segments) <==> exists gaps :: Decomposes(segments, runs, gaps)
  {
    var gaps := RunsDecompose(segments);
    forall other | Decomposes(segments, runs, other)
      ensures runs == Runs(segments)
    {
      RunsUnique(segments, runs, other);
    }
  }

  function Printed(runs: seq<seq<string>>): (r: seq<string>)
    ensures |r| == |runs|
    ensures forall i :: 0 <= i < |runs| ==> r[i] == Canonical(runs[i])
  {
    if runs == [] then [] else [Canonical(runs[0])] + Printed(runs[1..])
  }

  /** A path without static segments has the single run "/". */
  function StaticRuns(fullPath: string): (runs: seq<string>)
    ensures runs != []
  {
    var runs := Runs(Segments(fullPath));
    if runs == [] then ["/"] else Printed(runs)
  }

  function ExtendLast(runs: seq<seq<string>>, segment: string): seq<seq<string>>
    requires runs != []
  {
    runs[..|runs| - 1] + [runs[|runs| - 1] + [segment]]
  }

  lemma ExtendBehind(run: seq<string>, runs: seq<seq<string>>, segment: string)
    requires runs != []
    ensures ExtendLast([run] + runs, segment) == [run] + ExtendLast(runs, segment)
  {
    assert ([run] + runs)[..|runs|] == [run] + runs[..|runs| - 1];
  }

  lemma ExtendHead(head: string, runs: seq<seq<string>>, segment: string)
    requires runs != []
    ensures var longer := ExtendLast(runs, segment);
            ExtendLast([[head] + runs[0]] + runs[1..], segment) == [[head] + longer[0]] + longer[1..]
  {
    var first, rest := [head] + runs[0], runs[1..];
    if rest == [] {
      assert runs == [runs[0]] && [first] + rest == [first];
      assert [head] + (runs[0] + [segment]) == first + [segment];
    } else {
      ExtendBehind(first, rest, segment);
      ExtendBehind(runs[0], rest, segment);
      assert runs == [runs[0]] + rest;
      assert ExtendLast(runs, segment)[1..] == ExtendLast(rest, segment);
    }
  }

  predicate InRun(segments: seq<string>) {
    segments != [] && !IsParam(segments[|segments| - 1])
  }

  lemma {:induction false} InRunHasRun(segments: seq<string>)
    requires InRun(segments)
    ensures Runs(segments) != []
  {
    if |segments| > 1 {
      assert segments[1..][|segments| - 2] == segments[|segments| - 1];
      InRunHasRun(segments[1..]);
    }
  }

  /** One more segment extends the current run, starts a new one, or ends it. */
  lemma {:induction false} RunsAppend(segments: seq<string>, segment: string)
    ensures InRun(segments) ==> Runs(segments) != []
    ensures Runs(segments + [segment]) ==
            if IsParam(segment) then Runs(segments)
            else if InRun(segments) then ExtendLast(Runs(segments), segment)
            else Runs(segments) + [[segment]]
  {
    if InRun(segments) {
      InRunHasRun(segments);
    }
    if segments == [] {
      assert [] + [segment] == [segment];
      RunsOne(segment);
    } else {
      var head, tail := segments[0], segments[1..];
      assert segments == [head] + tail;
      assert segments + [segment] == [head] + (tail + [segment]);
      RunsCons(head, tail);
      RunsCons(head, tail + [segment]);
      if tail == [] {
        assert tail + [segment] == [segment];
        RunsOne(segment);
      } else {
        RunsAppend(tail, segment);
        assert tail[|tail| - 1] == segments[|segments| - 1];
        assert (tail + [segment])[0] == tail[0];
        AppendUnderHead(head, Runs(tail), segment);
      }
    }
  }

  /** Extending or adding a run at the end leaves the front alone. */
  lemma AppendUnderHead(head: string, runs: seq<seq<string>>, segment: string)
    ensures runs != [] ==> ExtendLast([[head]] + runs, segment) == [[head]] + ExtendLast(runs, segment)
    ensures runs != [] ==>
              var longer := ExtendLast(runs, segment);
              ExtendLast([[head] + runs[0]] + runs[1..], segment) == [[head] + longer[0]] + longer[1..]
    ensures runs != [] ==>
              var more := runs + [[segment]];
              [[head] + runs[0]] + runs[1..] + [[segment]] == [[head] + more[0]] + more[1..]
  {
    if runs != [] {
      ExtendBehind([head], runs, segment);
      ExtendHead(head, runs, segment);
    }
  }

  lemma RunsOne(segment: string)
    ensures Runs([segment]) == if IsParam(segment) then [] else [[segment]]
  {
    assert [segment][1..] == [];
  }

  lemma RunsCons(head: string, tail: seq<string>)
    ensures Runs([head] + tail) ==
            if IsParam(head) then Runs(tail)
            else if tail != [] && !IsParam(tail[0]) then [[head] + Runs(tail)[0]] + Runs(tail)[1..]
            else [[head]] + Runs(tail)
  {
    assert ([head] + tail)[1..] == tail;
  }

  /** What is known in the loop: the finished runs, and the one being collected. */
  ghost predicate Collected(segments: seq<string>, done: seq<seq<string>>, current: seq<string>) {
    && Runs(segments) == done + (if current == [] then [] else [current])
    && (current != [] <==> segments != [] && !IsParam(segments[|segments| - 1]))
  }

  lemma CollectOne(segments: seq<string>, done: seq<seq<string>>, current: seq<string>, segment: string)
    requires Collected(segments, done, current)
    ensures !IsParam(segment) ==> Collected(segments + [segment], done, current + [segment])
    ensures IsParam(segment) && current != [] ==> Collected(segments + [segment], done + [current], [])
    ensures IsParam(segment) && current == [] ==> Collected(segments + [segment], done, [])
  {
    RunsAppend(segments, segment);
    assert (done + [current])[..|done|] == done;
    assert [] + [segment] == [segment];
    assert done + [current] + [] == done + [current];
  }

  /** The loop of the source. */
  method ComputeStaticRuns(fullPath: string) returns (runs: seq<string>)
    ensures runs == StaticRuns(fullPath)
    ensures var blocks := Runs(Segments(fullPath));
            if blocks == [] then runs == ["/"]
            else |runs| == |blocks| && forall i :: 0 <= i < |blocks| ==> runs[i] == Canonical(blocks[i])
  {
    var segs := Segments(fullPath);
    runs := [];
    var current: seq<string> := [];
    ghost var done: seq<seq<string>> := [];
    for k := 0 to |segs|
      invariant runs == Printed(done) && Collected(segs[..k], done, current)
    {
      var seg := segs[k];
      assert segs[..k + 1] == segs[..k] + [seg];
      CollectOne(segs[..k], done, current, seg);
      if IsParam(seg) {
        if |current| > 0 {
          runs := PushRun(runs, done, current);
          done := done + [current];
          current := [];
        }
      } else {
        current := current + [seg];
      }
    }
    assert segs[..|segs|] == segs;
    if |current| > 0 {
      runs := PushRun(runs, done, current);
      done := done + [current];
    }
    assert Runs(segs) == done;
    if |runs| == 0 {
      runs := ["/"];
    }
  }

  method PushRun(runs: seq<string>, ghost done: seq<seq<string>>, current: seq<string>) returns (r: seq<string>)
    requires runs == Printed(done)
    ensures r == Printed(done + [current])
  {
    r := runs + [Canonical(current)];
    assert forall i :: 0 <= i < |done| ==> (done + [current])[i] == done[i];
  }

  // ---------- Which endpoints are wired ----------

  datatype UiFile = UiFile(path: string, content: string)

  predicate ContainsAll(file: UiFile, runs: seq<string>) {
    forall i :: 0 <= i < |runs| ==> Contains(file.content, runs[i])
  }

  /** The paths of the files that contain every one of the given runs. */
  function Matching(corpus: seq<UiFile>, runs: seq<string>): seq<string> {
    if corpus == [] then []
    else (if ContainsAll(corpus[0], runs) then [corpus[0].path] else []) + Matching(corpus[1..], runs)
  }

  function HasAll(runs: seq<string>): UiFile -> bool {
    (file: UiFile) => ContainsAll(file, runs)
  }

  function Mentions(run: string): UiFile -> bool {
    (file: UiFile) => Contains(file.content, run)
  }

  function PathsOf(files: seq<UiFile>): (paths: seq<string>)
    ensures |paths| == |files| && forall i :: 0 <= i < |files| ==> paths[i] == files[i].path
  {
    if files == [] then [] else [files[0].path] + PathsOf(files[1..])
  }

  function FilesWith(corpus: seq<UiFile>, runs: seq<string>): seq<UiFile> {
    if corpus == [] then []
    else (if ContainsAll(corpus[0], runs) then [corpus[0]] else []) + FilesWith(corpus[1..], runs)
  }

  lemma {:induction false} MatchingPaths(corpus: seq<UiFile>, runs: seq<string>)
    ensures Matching(corpus, runs) == PathsOf(FilesWith(corpus, runs))
  {
    if corpus != [] {
      MatchingPaths(corpus[1..], runs);
      var rest := FilesWith(corpus[1..], runs);
      assert [] + rest == rest && ([corpus[0]] + rest)[1..] == rest;
    }
  }

  lemma {:induction false} FilesSelect(corpus: seq<UiFile>, runs: seq<string>)
    ensures IsSelection(corpus, FilesWith(corpus, runs), HasAll(runs))
  {
    if corpus == [] {
      SelectNothing(HasAll(runs));
    } else {
      FilesSelect(corpus[1..], runs);
      SelectFirst(corpus[0], corpus[1..], FilesWith(corpus[1..], runs), HasAll(runs));
      assert [corpus[0]] + corpus[1..] == corpus;
    }
  }

  lemma MatchingSelects(corpus: seq<UiFile>, runs: seq<string>) returns (files: seq<UiFile>)
    ensures IsSelection(corpus, files, HasAll(runs)) && Matching(corpus, runs) == PathsOf(files)
  {
    files := FilesWith(corpus, runs);
    MatchingPaths(corpus, runs);
    FilesSelect(corpus, runs);
  }

  lemma FirstRunAlone(file: UiFile, runs: seq<string>)
    requires runs != []
    ensures HasAll(runs[..1])(file) <==> Mentions(runs[0])(file)
  {
    assert runs[..1][0] == runs[0];
  }

  lemma FirstRunSelects(corpus: seq<UiFile>, runs: seq<string>) returns (files: seq<UiFile>)
    requires runs != []
    ensures IsSelection(corpus, files, Mentions(runs[0])) && Matching(corpus, runs[..1]) == PathsOf(files)
  {
    files := MatchingSelects(corpus, runs[..1]);
    forall i | 0 <= i < |corpus|
      ensures HasAll(runs[..1])(corpus[i]) <==> Mentions(runs[0])(corpus[i])
    {
      FirstRunAlone(corpus[i], runs);
    }
    SameSelection(corpus, files, HasAll(runs[..1]), Mentions(runs[0]));
  }

  /** The files are listed in the order of the corpus, each as often as it is there: those with all runs, or, when
      there is none, those with the first run. */
  lemma MatchedFilesInOrder(corpus: seq<UiFile>, runs: seq<string>) returns (files: seq<UiFile>)
    requires runs != []
    ensures MatchedFiles(corpus, runs) == PathsOf(files)
    ensures if exists i :: 0 <= i < |corpus| && ContainsAll(corpus[i], runs)
            then IsSelection(corpus, files, HasAll(runs)) else IsSelection(corpus, files, Mentions(runs[0]))
  {
    MatchingIff(corpus, runs);
    if exists i :: 0 <= i < |corpus| && ContainsAll(corpus[i], runs) {
      files := MatchingSelects(corpus, runs);
    } else {
      files := FirstRunSelects(corpus, runs);
    }
  }

  predicate Mentioned(corpus: seq<UiFile>, run: string) {
    exists i :: 0 <= i < |corpus| && Contains(corpus[i].content, run)
  }

  /** The files with all runs, or else the files with the first one. */
  function MatchedFiles(corpus: seq<UiFile>, runs: seq<string>): seq<string>
    requires runs != []
  {
    if Matching(corpus, runs) != [] then Matching(corpus, runs) else Matching(corpus, runs[..1])
  }

  function Wired(corpus: seq<UiFile>, fullPath: string): bool {
    MatchedFiles(corpus, StaticRuns(fullPath)) != []
  }

  lemma {:induction false} MatchingIff(corpus: seq<UiFile>, runs: seq<string>)
    ensures forall p :: p in Matching(corpus, runs) <==>
              exists i :: 0 <= i < |corpus| && ContainsAll(corpus[i], runs) && corpus[i].path == p
    ensures Matching(corpus, runs) != [] <==> exists i :: 0 <= i < |corpus| && ContainsAll(corpus[i], runs)
  {
    if corpus != [] {
      MatchingIff(corpus[1..], runs);
      assert forall i :: 0 <= i < |corpus[1..]| ==> corpus[1..][i] == corpus[i + 1];
      forall i | 1 <= i < |corpus| && ContainsAll(corpus[i], runs)
        ensures corpus[i].path in Matching(corpus, runs)
      {
        assert corpus[1..][i - 1] == corpus[i];
        assert corpus[i].path in Matching(corpus[1..], runs);
      }
    }
  }

  /** An endpoint is wired exactly when some file contains its first run: the stage that asks for all runs
      decides only which files are listed. */
  lemma WiredIffFirstRun(corpus: seq<UiFile>, fullPath: string)
    ensures Wired(corpus, fullPath) <==> Mentioned(corpus, StaticRuns(fullPath)[0])
  {
    var runs := StaticRuns(fullPath);
    MatchingIff(corpus, runs);
    MatchingIff(corpus, runs[..1]);
    assert runs[..1][0] == runs[0];
    forall i | 0 <= i < |corpus|
      ensures ContainsAll(corpus[i], runs[..1]) <==> Contains(corpus[i].content, runs[0])
      ensures ContainsAll(corpus[i], runs) ==> Contains(corpus[i].content, runs[0])
    {
    }
  }

  /** Which files are listed for a wired endpoint. */
  lemma MatchedFilesExact(corpus: seq<UiFile>, runs: seq<string>, p: string)
    requires runs != []
    ensures p in MatchedFiles(corpus, runs) <==>
            exists i :: 0 <= i < |corpus| && corpus[i].path == p
                        && (ContainsAll(corpus[i], runs)
                            || (Contains(corpus[i].content, runs[0])
                                && forall j :: 0 <= j < |corpus| ==> !ContainsAll(corpus[j], runs)))
  {
    MatchingIff(corpus, runs);
    MatchingIff(corpus, runs[..1]);
    assert forall i :: 0 <= i < |corpus| ==> (ContainsAll(corpus[i], runs[..1]) <==> Contains(corpus[i].content, runs[0]));
  }

  predicate Includes(larger: seq<UiFile>, smaller: seq<UiFile>) {
    forall i :: 0 <= i < |smaller| ==> smaller[i] in larger
  }

  /** Adding files never unwires an endpoint. */
  lemma AddingFilesKeepsWired(smaller: seq<UiFile>, larger: seq<UiFile>, fullPath: string)
    requires Includes(larger, smaller) && Wired(smaller, fullPath)
    ensures Wired(larger, fullPath)
  {
    WiredIffFirstRun(smaller, fullPath);
    WiredIffFirstRun(larger, fullPath);
    var i :| 0 <= i < |smaller| && Contains(smaller[i].content, StaticRuns(fullPath)[0]);
    assert smaller[i] in larger;
    var j :| 0 <= j < |larger| && larger[j] == smaller[i];
    assert Contains(larger[j].content, StaticRuns(fullPath)[0]);
  }

  // ---------- What the header of the script promises ----------

  predicate OneFileHasAll(corpus: seq<UiFile>, runs: seq<string>) {
    exists i :: 0 <= i < |corpus| && ContainsAll(corpus[i], runs)
  }

  /** The runs occur in the text in their order, each behind the end of the one before. */
  predicate InOrder(content: string, runs: seq<string>, from: nat)
    decreases |runs|
  {
    runs == [] ||
    exists at | from <= at <= |content| :: OccursAt(content, runs[0], at) && InOrder(content, runs[1..], at + |runs[0]|)
  }

  predicate OneFileInOrder(corpus: seq<UiFile>, runs: seq<string>) {
    exists i :: 0 <= i < |corpus| && InOrder(corpus[i].content, runs, 0)
  }

  lemma {:induction false} InOrderContains(content: string, runs: seq<string>, from: nat)
    requires InOrder(content, runs, from)
    ensures forall k :: 0 <= k < |runs| ==> Contains(content, runs[k])
    decreases |runs|
  {
    if runs != [] {
      var at :| from <= at <= |content| && OccursAt(content, runs[0], at)
                && InOrder(content, runs[1..], at + |runs[0]|);
      InOrderContains(content, runs[1..], at + |runs[0]|);
      assert forall k :: 1 <= k < |runs| ==> runs[k] == runs[1..][k - 1];
    }
  }

  /** The promise is the stronger one: a file with all runs in order has them all, and an endpoint with such a
      file is wired. */
  lemma PromiseIsStronger(corpus: seq<UiFile>, fullPath: string)
    ensures OneFileInOrder(corpus, StaticRuns(fullPath)) ==> OneFileHasAll(corpus, StaticRuns(fullPath))
    ensures OneFileHasAll(corpus, StaticRuns(fullPath)) ==> Wired(corpus, fullPath)
  {
    var runs := StaticRuns(fullPath);
    forall i | 0 <= i < |corpus| && InOrder(corpus[i].content, runs, 0)
      ensures ContainsAll(corpus[i], runs)
    {
      InOrderContains(corpus[i].content, runs, 0);
    }
    WiredIffFirstRun(corpus, fullPath);
    forall i | 0 <= i < |corpus| && ContainsAll(corpus[i], runs)
      ensures Contains(corpus[i].content, runs[0])
    {
    }
  }

  /** On one corpus the audit says what one file with all runs would say, if and only if mentioning the first
      run goes along with such a file. */
  lemma WiredMatchesOneFileIff(corpus: seq<UiFile>, fullPath: string)
    ensures (Wired(corpus, fullPath) <==> OneFileHasAll(corpus, StaticRuns(fullPath)))
       <==> (Mentioned(corpus, StaticRuns(fullPath)[0]) ==> OneFileHasAll(corpus, StaticRuns(fullPath)))
  {
    WiredIffFirstRun(corpus, fullPath);
    PromiseIsStronger(corpus, fullPath);
  }

  lemma RunsNonEmpty(fullPath: string)
    ensures forall k :: 0 <= k < |StaticRuns(fullPath)| ==> StaticRuns(fullPath)[k] != ""
  {
  }

  lemma ContainsItself(s: string)
    ensures OccursAt(s, s, 0) && Contains(s, s)
  {
    assert s[0..0 + |s|] == s;
    assert OccursAt(s, s, 0);
  }

  lemma ContainsThrough(outer: string, middle: string, inner: string)
    requires Contains(outer, middle) && Contains(middle, inner)
    ensures Contains(outer, inner)
  {
    var i :| 0 <= i <= |outer| && OccursAt(outer, middle, i);
    var j :| 0 <= j <= |middle| && OccursAt(middle, inner, j);
    var at := i + j;
    forall k | 0 <= k < |inner|
      ensures outer[at + k] == inner[k]
    {
      assert outer[i..i + |middle|][j + k] == middle[j + k];
      assert middle[j..j + |inner|][k] == inner[k];
    }
    assert outer[at..at + |inner|] == inner;
    assert OccursAt(outer, inner, at);
  }

  /** The file that refers to the first run and to nothing else. */
  function FirstRunOnly(fullPath: string): seq<UiFile> {
    [UiFile("page.tsx", StaticRuns(fullPath)[0])]
  }

  lemma FirstRunOnlyWires(fullPath: string)
    ensures Wired(FirstRunOnly(fullPath), fullPath)
  {
    WiredIffFirstRun(FirstRunOnly(fullPath), fullPath);
    ContainsItself(StaticRuns(fullPath)[0]);
    assert Contains(FirstRunOnly(fullPath)[0].content, StaticRuns(fullPath)[0]);
  }

  /** For every corpus the audit asks for one file with all runs, if and only if the first run of the path
      contains all its other runs. */
  lemma AsksForAllRunsIff(fullPath: string)
    ensures (forall corpus :: Wired(corpus, fullPath) <==> OneFileHasAll(corpus, StaticRuns(fullPath)))
       <==> (forall k :: 0 <= k < |StaticRuns(fullPath)| ==> Contains(StaticRuns(fullPath)[0], StaticRuns(fullPath)[k]))
  {
    var runs := StaticRuns(fullPath);
    if forall k :: 0 <= k < |runs| ==> Contains(runs[0], runs[k]) {
      forall corpus: seq<UiFile>
        ensures Wired(corpus, fullPath) <==> OneFileHasAll(corpus, runs)
      {
        PromiseIsStronger(corpus, fullPath);
        WiredIffFirstRun(corpus, fullPath);
        forall i, k | 0 <= i < |corpus| && Contains(corpus[i].content, runs[0]) && 0 <= k < |runs|
          ensures Contains(corpus[i].content, runs[k])
        {
          ContainsThrough(corpus[i].content, runs[0], runs[k]);
        }
      }
    } else {
      FirstRunOnlyWires(fullPath);
      assert !OneFileHasAll(FirstRunOnly(fullPath), runs);
    }
  }

  /** For every corpus the audit keeps its promise of one file with all runs in order, if and only if the path
      has a single run. */
  lemma KeepsItsPromiseIff(fullPath: string)
    ensures (forall corpus :: Wired(corpus, fullPath) <==> OneFileInOrder(corpus, StaticRuns(fullPath)))
       <==> |StaticRuns(fullPath)| == 1
  {
    var runs := StaticRuns(fullPath);
    if |runs| == 1 {
      forall corpus: seq<UiFile>
        ensures Wired(corpus, fullPath) <==> OneFileInOrder(corpus, runs)
      {
        PromiseIsStronger(corpus, fullPath);
        WiredIffFirstRun(corpus, fullPath);
        forall i | 0 <= i < |corpus| && Contains(corpus[i].content, runs[0])
          ensures InOrder(corpus[i].content, runs, 0)
        {
          assert runs[1..] == [];
        }
      }
    } else {
      FirstRunOnlyWires(fullPath);
      NoRoomForAnother(runs);
      RunsNonEmpty(fullPath);
      assert !OneFileInOrder(FirstRunOnly(fullPath), runs);
    }
  }

  lemma NoRoomForAnother(runs: seq<string>)
    requires |runs| >= 2
    ensures runs[1] != "" ==> !InOrder(runs[0], runs, 0)
  {
    assert runs[1..][0] == runs[1];
  }

  lemma TwoSegments(a: string, b: string)
    ensures |Canonical([a, b])| == |a| + |b| + 2
  {
    assert [a, b][1..] == [b] && Join([b], '/') == b;
    assert Join([a, b], '/') == a + ['/'] + Join([b], '/');
  }

  lemma TwoRunsFail(a: string, b: string, p: string, c: string, d: string)
    requires !IsParam(a) && !IsParam(b) && IsParam(p) && !IsParam(c) && !IsParam(d)
    requires AreSegments([a, b, p, c, d]) && |a| + |b| < |c| + |d|
    ensures var path, first := Canonical([a, b, p, c, d]), Canonical([a, b]);
            && StaticRuns(path) == [first, Canonical([c, d])]
            && Wired([UiFile("page.tsx", first)], path)
            && !OneFileHasAll([UiFile("page.tsx", first)], StaticRuns(path))
  {
    var path, first, second := Canonical([a, b, p, c, d]), Canonical([a, b]), Canonical([c, d]);
    SegmentsOfCanonical([a, b, p, c, d]);
    ExampleRuns(a, b, p, c, d);
    assert [[a, b], [c, d]][1..] == [[c, d]] && [[c, d]][1..] == [];
    assert Printed([[c, d]]) == [second];
    assert StaticRuns(path) == [first, second];
    FirstRunOnlyWires(path);
    TwoSegments(a, b);
    TwoSegments(c, d);
    assert !Contains(first, second);
    assert FirstRunOnly(path) == [UiFile("page.tsx", first)];
  }

  /** The header's own example, /v1/domains/:id/warmup/start: a page that refers to /v1/domains alone counts as
      wiring, although no file has both runs. */
  lemma HeaderExampleFails()
    ensures var path := Canonical(["v1", "domains", ":id", "warmup", "start"]);
            var corpus := [UiFile("page.tsx", Canonical(["v1", "domains"]))];
            && StaticRuns(path) == [Canonical(["v1", "domains"]), Canonical(["warmup", "start"])]
            && Wired(corpus, path)
            && !OneFileHasAll(corpus, StaticRuns(path))
  {
    TwoRunsFail("v1", "domains", ":id", "warmup", "start");
  }

  lemma ExampleRuns(a: string, b: string, p: string, c: string, d: string)
    requires !IsParam(a) && !IsParam(b) && IsParam(p) && !IsParam(c) && !IsParam(d)
    ensures Runs([a, b, p, c, d]) == [[a, b], [c, d]]
  {
    TakeRun([a, b], [p, c, d]);
    SkipParams([p], [c, d]);
    TakeRun([c, d], []);
    assert [a, b] + [p, c, d] == [a, b, p, c, d] && [p] + [c, d] == [p, c, d] && [c, d] + [] == [c, d];
  }

  // ---------- The status of a route file ----------

  datatype Status = FullyWired | Partial | Unwired

  /** What the audit says about a path: whether it is wired, and the files listed for it. */
  function Verdict(corpus: seq<UiFile>, path: string): (bool, seq<string>) {
    (Wired(corpus, path), MatchedFiles(corpus, StaticRuns(path)))
  }

  function Verdicts(corpus: seq<UiFile>, paths: seq<string>): (v: seq<(bool, seq<string>)>)
    ensures |v| == |paths|
  {
    seq(|paths|, i requires 0 <= i < |paths| => Verdict(corpus, paths[i]))
  }

  function CountTrue(verdicts: seq<(bool, seq<string>)>): (n: nat)
    ensures n <= |verdicts|
  {
    if verdicts == [] then 0 else (if verdicts[0].0 then 1 else 0) + CountTrue(verdicts[1..])
  }

  function WiredCount(corpus: seq<UiFile>, paths: seq<string>): (n: nat)
    ensures n <= |paths|
  {
    CountTrue(Verdicts(corpus, paths))
  }

  function StatusOf(total: nat, wiredCount: nat): Status {
    if total == 0 || wiredCount == 0 then Unwired else if wiredCount == total then FullyWired else Partial
  }

  lemma {:induction false} CountBounds(verdicts: seq<(bool, seq<string>)>)
    ensures CountTrue(verdicts) == 0 <==> forall i :: 0 <= i < |verdicts| ==> !verdicts[i].0
    ensures CountTrue(verdicts) == |verdicts| <==> forall i :: 0 <= i < |verdicts| ==> verdicts[i].0
  {
    if verdicts != [] {
      CountBounds(verdicts[1..]);
      assert forall i :: 0 <= i < |verdicts[1..]| ==> verdicts[1..][i] == verdicts[i + 1];
      assert forall i :: 1 <= i < |verdicts| ==> verdicts[i] == verdicts[1..][i - 1];
    }
  }

  /** A route file is wired when it has endpoints and all are mentioned, and unwired when none is. */
  lemma StatusMeaning(corpus: seq<UiFile>, paths: seq<string>)
    ensures var status := StatusOf(|paths|, WiredCount(corpus, paths));
            && (status == Unwired <==>
                  forall i :: 0 <= i < |paths| ==> !Mentioned(corpus, StaticRuns(paths[i])[0]))
            && (status == FullyWired <==>
                  paths != [] && forall i :: 0 <= i < |paths| ==> Mentioned(corpus, StaticRuns(paths[i])[0]))
  {
    var verdicts := Verdicts(corpus, paths);
    CountBounds(verdicts);
    forall i | 0 <= i < |paths|
      ensures verdicts[i].0 <==> Mentioned(corpus, StaticRuns(paths[i])[0])
    {
      WiredIffFirstRun(corpus, paths[i]);
    }
  }

  class Endpoint {
    const fullPath: string
    var wired: bool
    var matchedFiles: seq<string>

    constructor (fullPath: string)
      ensures this.fullPath == fullPath && !wired && matchedFiles == []
    {
      this.fullPath, wired, matchedFiles := fullPath, false, [];
    }
  }

  predicate Untouched(ep: Endpoint)
    reads ep
  {
    !ep.wired && ep.matchedFiles == []
  }

  predicate Expected(corpus: seq<UiFile>, ep: Endpoint, verdict: (bool, seq<string>)) {
    verdict == Verdict(corpus, ep.fullPath)
  }

  predicate Judged(ep: Endpoint, verdict: (bool, seq<string>))
    reads ep
  {
    (ep.wired, ep.matchedFiles) == verdict
  }

  /** One endpoint: first the files with all runs, then those with the first run. */
  method MatchEndpoint(ep: Endpoint, corpus: seq<UiFile>)
    modifies ep
    ensures ep.wired == (old(ep.wired) || Wired(corpus, ep.fullPath))
    ensures ep.matchedFiles == if Wired(corpus, ep.fullPath) then MatchedFiles(corpus, StaticRuns(ep.fullPath))
                               else old(ep.matchedFiles)
  {
    var runs := ComputeStaticRuns(ep.fullPath);
    var exactMatches := Matching(corpus, runs);
    if |exactMatches| > 0 {
      ep.wired, ep.matchedFiles := true, exactMatches;
      return;
    }
    var fallbackMatches := Matching(corpus, runs[..1]);
    if |fallbackMatches| > 0 {
      ep.wired, ep.matchedFiles := true, fallbackMatches;
    }
  }

  function Paths(endpoints: seq<Endpoint>): (paths: seq<string>)
    ensures |paths| == |endpoints|
    ensures forall i :: 0 <= i < |endpoints| ==> paths[i] == endpoints[i].fullPath
  {
    if endpoints == [] then [] else [endpoints[0].fullPath] + Paths(endpoints[1..])
  }

  lemma {:induction false} CountAppend(verdicts: seq<(bool, seq<string>)>, verdict: (bool, seq<string>))
    ensures CountTrue(verdicts + [verdict]) == CountTrue(verdicts) + (if verdict.0 then 1 else 0)
  {
    if verdicts == [] {
      assert [] + [verdict] == [verdict];
    } else {
      assert (verdicts + [verdict])[1..] == verdicts[1..] + [verdict];
      CountAppend(verdicts[1..], verdict);
    }
  }

  /** All endpoints of one route file, freshly read and so not yet wired. */
  method AuditRouteFile(endpoints: seq<Endpoint>, corpus: seq<UiFile>) returns (status: Status, wiredCount: nat)
    requires forall i, j :: 0 <= i < j < |endpoints| ==> endpoints[i] != endpoints[j]
    requires forall i :: 0 <= i < |endpoints| ==> Untouched(endpoints[i])
    modifies endpoints
    ensures forall i :: 0 <= i < |endpoints| ==> Judged(endpoints[i], Verdicts(corpus, Paths(endpoints))[i])
    ensures wiredCount == WiredCount(corpus, Paths(endpoints)) && status == StatusOf(|endpoints|, wiredCount)
  {
    ghost var verdicts := Verdicts(corpus, Paths(endpoints));
    MatchAll(endpoints, corpus, verdicts);
    wiredCount := CountWired(endpoints, verdicts);
    status := StatusOf(|endpoints|, wiredCount);
  }

  method MatchAll(endpoints: seq<Endpoint>, corpus: seq<UiFile>, ghost verdicts: seq<(bool, seq<string>)>)
    requires forall i, j :: 0 <= i < j < |endpoints| ==> endpoints[i] != endpoints[j]
    requires |verdicts| == |endpoints|
    requires forall i :: 0 <= i < |endpoints| ==> Untouched(endpoints[i]) && Expected(corpus, endpoints[i], verdicts[i])
    modifies endpoints
    ensures forall i :: 0 <= i < |endpoints| ==> Judged(endpoints[i], verdicts[i])
  {
    for k := 0 to |endpoints|
      invariant forall i :: k <= i < |endpoints| ==> Untouched(endpoints[i])
      invariant forall i :: 0 <= i < k ==> Judged(endpoints[i], verdicts[i])
    {
      assert forall i :: 0 <= i < |endpoints| && i != k ==> endpoints[i] != endpoints[k];
      MatchOne(endpoints[k], corpus, verdicts[k]);
    }
  }

  method MatchOne(ep: Endpoint, corpus: seq<UiFile>, ghost verdict: (bool, seq<string>))
    requires Untouched(ep) && Expected(corpus, ep, verdict)
    modifies ep
    ensures Judged(ep, verdict)
  {
    MatchEndpoint(ep, corpus);
  }

  method CountWired(endpoints: seq<Endpoint>, ghost verdicts: seq<(bool, seq<string>)>) returns (wiredCount: nat)
    requires |verdicts| == |endpoints|
    requires forall i :: 0 <= i < |endpoints| ==> Judged(endpoints[i], verdicts[i])
    ensures wiredCount == CountTrue(verdicts)
  {
    wiredCount := 0;
    for k := 0 to |endpoints|
      invariant wiredCount == CountTrue(verdicts[..k])
    {
      assert verdicts[..k + 1] == verdicts[..k] + [verdicts[k]];
      CountAppend(verdicts[..k], verdicts[k]);
      if endpoints[k].wired {
        wiredCount := wiredCount + 1;
      }
    }
    assert verdicts[..|endpoints|] == verdicts;
  }
}
