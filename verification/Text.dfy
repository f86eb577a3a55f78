/**
 String operations of JavaScript that several components share.

 Characters stand for UTF-16 code units. Trimming is specified by what it cuts off and
 by what it leaves; splitting and joining at a character are inverse to each other as
 far as they can be; `startsWith` and `indexOf` are specified by the occurrences of the
 needle. White space and line terminators are those of ECMAScript, which differ from
 those of ASCII and matter for `trim`, for `\s` and for the dot of regular expressions.
 */
module Text {

  /** The line terminators of ECMAScript: the characters that `.` does not match. */
  predicate IsLineTerminator(c: char) {
    c == '\n' || c == '\r' || c == '\U{2028}' || c == '\U{2029}'
  }

  /** White space in the sense of `\s` and of `trim`. */
  predicate IsSpace(c: char) {
    || c == ' ' || c == '\t' || c == '\U{000B}' || c == '\U{000C}' || c == '\U{00A0}' || c == '\U{FEFF}'
    || c == '\U{1680}' || '\U{2000}' <= c <= '\U{200A}' || c == '\U{202F}' || c == '\U{205F}' || c == '\U{3000}'
    || IsLineTerminator(c)
  }

  /** The same by code points, as sections 12.2 and 12.3 of ECMA-262 list them. */
  lemma SpaceCodes(c: char)
    ensures IsLineTerminator(c) <==> c as int in {10, 13, 8232, 8233}
    ensures IsSpace(c) <==>
            || c as int in {9, 10, 11, 12, 13, 32, 160, 5760, 8232, 8233, 8239, 8287, 12288, 65279}
            || 8192 <= c as int <= 8202
  {
  }

  function TrimStart(s: string): string {
    if s == "" || !IsSpace(s[0]) then s else TrimStart(s[1..])
  }

  function TrimEnd(s: string): string {
    if s == "" || !IsSpace(s[|s| - 1]) then s else TrimEnd(s[..|s| - 1])
  }

  function Trim(s: string): string {
    TrimEnd(TrimStart(s))
  }

  /** Neither end is white space: exactly the strings that `trim` leaves alone. */
  predicate IsTrimmed(s: string) {
    s == "" || (!IsSpace(s[0]) && !IsSpace(s[|s| - 1]))
  }

  lemma {:induction false} TrimStartSpec(s: string)
    ensures var r := TrimStart(s);
            && |r| <= |s| && r == s[|s| - |r|..]
            && (forall i :: 0 <= i < |s| - |r| ==> IsSpace(s[i]))
            && (r != "" ==> !IsSpace(r[0]))
  {
    if s != "" && IsSpace(s[0]) {
      TrimStartSpec(s[1..]);
      var r := TrimStart(s);
      assert s[1..][|s| - 1 - |r|..] == s[|s| - |r|..];
      assert forall i :: 1 <= i < |s| ==> s[i] == s[1..][i - 1];
    }
  }

  lemma {:induction false} TrimEndSpec(s: string)
    ensures var r := TrimEnd(s);
            && |r| <= |s| && r == s[..|r|]
            && (forall i :: |r| <= i < |s| ==> IsSpace(s[i]))
            && (r != "" ==> !IsSpace(r[|r| - 1]))
  {
    if s != "" && IsSpace(s[|s| - 1]) {
      TrimEndSpec(s[..|s| - 1]);
    }
  }

  /** Trimming cuts out a trimmed middle part; what it cuts off is white space. */
  lemma TrimSpec(s: string) returns (from: nat)
    ensures from + |Trim(s)| <= |s| && Trim(s) == s[from..from + |Trim(s)|] && IsTrimmed(Trim(s))
    ensures forall i :: 0 <= i < |s| && !(from <= i < from + |Trim(s)|) ==> IsSpace(s[i])
  {
    var t := TrimStart(s);
    TrimStartSpec(s);
    TrimEndSpec(t);
    from := |s| - |t|;
    forall i | from + |Trim(s)| <= i < |s|
      ensures IsSpace(s[i])
    {
      assert s[i] == t[i - from];
    }
  }

  lemma TrimFixes(s: string)
    ensures IsTrimmed(Trim(s))
    ensures Trim(s) == s <==> IsTrimmed(s)
  {
    var from := TrimSpec(s);
  }

  // ---------- Splitting at a separator and joining ----------

  function Split(s: string, separator: char): (parts: seq<string>)
    ensures |parts| >= 1
  {
    if s == "" then [""]
    else if s[0] == separator then [""] + Split(s[1..], separator)
    else
      var parts := Split(s[1..], separator);
      [[s[0]] + parts[0]] + parts[1..]
  }

  function Join(parts: seq<string>, separator: char): string {
    if parts == [] then ""
    else if |parts| == 1 then parts[0]
    else parts[0] + [separator] + Join(parts[1..], separator)
  }

  lemma {:induction false} SplitPieces(s: string, separator: char)
    ensures forall i :: 0 <= i < |Split(s, separator)| ==> separator !in Split(s, separator)[i]
  {
    if s != "" {
      SplitPieces(s[1..], separator);
    }
  }

  lemma {:induction false} SplitPlain(s: string, separator: char)
    requires separator !in s
    ensures Split(s, separator) == [s]
  {
    if s != "" {
      SplitPlain(s[1..], separator);
      assert s == [s[0]] + s[1..];
    }
  }

  lemma {:induction false} SplitFirst(head: string, separator: char, tail: string)
    requires separator !in head
    ensures Split(head + [separator] + tail, separator) == [head] + Split(tail, separator)
  {
    var s := head + [separator] + tail;
    if head == "" {
      assert s[1..] == tail;
    } else {
      assert s[1..] == head[1..] + [separator] + tail;
      SplitFirst(head[1..], separator, tail);
      assert head == [head[0]] + head[1..];
    }
  }

  lemma {:induction false} SplitConcat(a: string, separator: char, b: string)
    ensures Split(a + [separator] + b, separator) == Split(a, separator) + Split(b, separator)
  {
    var s := a + [separator] + b;
    if a == "" {
      assert s[1..] == b;
    } else {
      assert s[1..] == a[1..] + [separator] + b;
      SplitConcat(a[1..], separator, b);
    }
  }

  lemma {:induction false} SplitJoin(parts: seq<string>, separator: char)
    requires parts != [] && forall i :: 0 <= i < |parts| ==> separator !in parts[i]
    ensures Split(Join(parts, separator), separator) == parts
  {
    if |parts| == 1 {
      SplitPlain(parts[0], separator);
    } else {
      SplitJoin(parts[1..], separator);
      SplitFirst(parts[0], separator, Join(parts[1..], separator));
    }
  }

  lemma {:induction false} JoinSplit(s: string, separator: char)
    ensures Join(Split(s, separator), separator) == s
  {
    if s != "" {
      JoinSplit(s[1..], separator);
      var parts := Split(s[1..], separator);
      if s[0] == separator {
        assert Split(s, separator)[1..] == parts;
      } else if |parts| > 1 {
        assert Split(s, separator)[1..] == parts[1..];
      }
    }
  }

  // ---------- Searching ----------

  /** `haystack.startsWith(needle, at)`, and whether the needle occurs there at all. */
  predicate OccursAt(haystack: string, needle: string, at: nat) {
    at + |needle| <= |haystack| && haystack[at..at + |needle|] == needle
  }

  lemma DiffersAt(haystack: string, needle: string, at: nat, k: nat)
    requires k < |needle| && at + k < |haystack| && haystack[at + k] != needle[k]
    ensures !OccursAt(haystack, needle, at)
  {
    assert at + |needle| <= |haystack| ==> haystack[at..at + |needle|][k] == haystack[at + k];
  }

  predicate Contains(haystack: string, needle: string) {
    exists at :: 0 <= at <= |haystack| && OccursAt(haystack, needle, at)
  }

  /** The first occurrence at or after `from`, or -1. */
  function IndexOf(haystack: string, needle: string, from: nat): (at: int)
    ensures at == -1 || (from <= at && OccursAt(haystack, needle, at))
    ensures forall k :: from <= k < (if at < 0 then |haystack| + 1 else at) ==> !OccursAt(haystack, needle, k)
    decreases |haystack| + 1 - from
  {
    if from > |haystack| then -1
    else if OccursAt(haystack, needle, from) then from
    else IndexOf(haystack, needle, from + 1)
  }
}
