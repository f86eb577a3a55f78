/**
 Two parts of the public changelog's list (apps/changelog/app/changelog-list.tsx): the three
 replacements that escape HTML, and the grouping of the visible releases by version.
 */
module Changelog {
  import opened Text
  import opened OrderedMap
  import opened Sequences

  // ---------- Escaping ----------

  /** `s.replace(/c/g, text)` for a single character. */
  function ReplaceAll(s: string, c: char, text: string): string {
    if s == "" then "" else (if s[0] == c then text else [s[0]]) + ReplaceAll(s[1..], c, text)
  }

  /** The three passes in the order of the source: the ampersand first. */
  function EscapeHtml(md: string): string {
    ReplaceAll(ReplaceAll(ReplaceAll(md, '&', "&amp;"), '<', "&lt;"), '>', "&gt;")
  }

  /** What one character becomes when all three substitutions happen at once. */
  function EscapeChar(c: char): string {
    if c == '&' then "&amp;" else if c == '<' then "&lt;" else if c == '>' then "&gt;" else [c]
  }

  function EscapeAtOnce(md: string): string {
    if md == "" then "" else EscapeChar(md[0]) + EscapeAtOnce(md[1..])
  }

  /** A single pass over the text that turns each of the three entities back into its character. */
  function Unescape(html: string): string
    decreases |html|
  {
    if html == "" then ""
    else if OccursAt(html, "&amp;", 0) then "&" + Unescape(html[5..])
    else if OccursAt(html, "&lt;", 0) then "<" + Unescape(html[4..])
    else if OccursAt(html, "&gt;", 0) then ">" + Unescape(html[4..])
    else [html[0]] + Unescape(html[1..])
  }

  lemma {:induction false} ReplaceConcat(a: string, b: string, c: char, text: string)
    ensures ReplaceAll(a + b, c, text) == ReplaceAll(a, c, text) + ReplaceAll(b, c, text)
  {
    if a == "" {
      assert a + b == b;
    } else {
      assert (a + b)[1..] == a[1..] + b && (a + b)[0] == a[0];
      ReplaceConcat(a[1..], b, c, text);
      ConcatAssoc(if a[0] == c then text else [a[0]], ReplaceAll(a[1..], c, text), ReplaceAll(b, c, text));
    }
  }

  lemma {:induction false} ReplaceAbsent(s: string, c: char, text: string)
    requires c !in s
    ensures ReplaceAll(s, c, text) == s
  {
    if s != "" {
      ReplaceAbsent(s[1..], c, text);
    }
  }

  lemma EscapeHead(c: char, rest: string)
    ensures EscapeHtml([c] + rest) == EscapeChar(c) + EscapeHtml(rest)
  {
    ReplaceConcat([c], rest, '&', "&amp;");
    var head, tail := ReplaceAll([c], '&', "&amp;"), ReplaceAll(rest, '&', "&amp;");
    assert head == if c == '&' then "&amp;" else [c];
    ReplaceConcat(head, tail, '<', "&lt;");
    var head2, tail2 := ReplaceAll(head, '<', "&lt;"), ReplaceAll(tail, '<', "&lt;");
    if c == '&' {
      ReplaceAbsent(head, '<', "&lt;");
    }
    assert head2 == if c == '&' then "&amp;" else if c == '<' then "&lt;" else [c];
    ReplaceConcat(head2, tail2, '>', "&gt;");
    if c == '&' || c == '<' {
      ReplaceAbsent(head2, '>', "&gt;");
    }
  }

  /** The three passes together substitute every character once, independently of the others. */
  lemma {:induction false} ThreePassesAreOne(md: string)
    ensures EscapeHtml(md) == EscapeAtOnce(md)
  {
    if md != "" {
      ThreePassesAreOne(md[1..]);
      EscapeHead(md[0], md[1..]);
      assert md == [md[0]] + md[1..];
    }
  }

  /** No raw angle bracket survives. */
  lemma {:induction false} NoAngleBrackets(md: string)
    ensures '<' !in EscapeHtml(md) && '>' !in EscapeHtml(md)
  {
    if md != "" {
      NoAngleBrackets(md[1..]);
      EscapeHead(md[0], md[1..]);
      assert md == [md[0]] + md[1..];
    }
  }

  lemma UnescapeHead(c: char, rest: string)
    ensures Unescape(EscapeChar(c) + rest) == [c] + Unescape(rest)
  {
    var html := EscapeChar(c) + rest;
    if c == '&' {
      assert html[0..5] == "&amp;" && html[5..] == rest;
    } else if c == '<' {
      assert html[0..4] == "&lt;" && html[4..] == rest;
      DiffersAt(html, "&amp;", 0, 1);
    } else if c == '>' {
      assert html[0..4] == "&gt;" && html[4..] == rest;
      DiffersAt(html, "&amp;", 0, 1);
      DiffersAt(html, "&lt;", 0, 1);
    } else {
      assert html[0] == c && html[1..] == rest;
      DiffersAt(html, "&amp;", 0, 0);
      DiffersAt(html, "&lt;", 0, 0);
      DiffersAt(html, "&gt;", 0, 0);
    }
  }

  /** Decoding the entities gives the original text back, for every text. */
  lemma {:induction false} EscapeRoundTrip(md: string)
    ensures Unescape(EscapeHtml(md)) == md
  {
    if md != "" {
      EscapeRoundTrip(md[1..]);
      EscapeHead(md[0], md[1..]);
      UnescapeHead(md[0], EscapeHtml(md[1..]));
      assert md == [md[0]] + md[1..];
    }
  }

  lemma EscapeInjective(a: string, b: string)
    requires EscapeHtml(a) == EscapeHtml(b)
    ensures a == b
  {
    EscapeRoundTrip(a);
    EscapeRoundTrip(b);
  }

  /** The same passes with the ampersand last. */
  function EscapeAmpersandLast(md: string): string {
    ReplaceAll(ReplaceAll(ReplaceAll(md, '<', "&lt;"), '>', "&gt;"), '&', "&amp;")
  }

  lemma AmpersandLastHead(c: char, rest: string)
    ensures EscapeAmpersandLast([c] + rest) ==
            (if c == '&' then "&amp;" else if c == '<' then "&amp;lt;" else if c == '>' then "&amp;gt;" else [c])
            + EscapeAmpersandLast(rest)
  {
    ReplaceConcat([c], rest, '<', "&lt;");
    var head, tail := ReplaceAll([c], '<', "&lt;"), ReplaceAll(rest, '<', "&lt;");
    ReplaceConcat(head, tail, '>', "&gt;");
    var head2, tail2 := ReplaceAll(head, '>', "&gt;"), ReplaceAll(tail, '>', "&gt;");
    ReplaceConcat(head2, tail2, '&', "&amp;");
    AmpersandLastChar(c);
  }

  lemma AmpersandLastChar(c: char)
    ensures EscapeAmpersandLast([c]) ==
            if c == '&' then "&amp;" else if c == '<' then "&amp;lt;" else if c == '>' then "&amp;gt;" else [c]
  {
    ReplaceOne(c, '<', "&lt;");
    if c == '<' {
      ReplaceAbsent("&lt;", '>', "&gt;");
      DoubleEscape("lt;");
    } else {
      ReplaceOne(c, '>', "&gt;");
      if c == '>' {
        DoubleEscape("gt;");
      } else {
        ReplaceOne(c, '&', "&amp;");
      }
    }
  }

  lemma ReplaceOne(c: char, d: char, text: string)
    ensures ReplaceAll([c], d, text) == if c == d then text else [c]
  {
    assert [c][1..] == "" && text + "" == text;
  }

  lemma DoubleEscape(name: string)
    requires '&' !in name
    ensures ReplaceAll("&" + name, '&', "&amp;") == "&amp;" + name
  {
    assert ("&" + name)[1..] == name;
    ReplaceAbsent(name, '&', "&amp;");
  }

  /** The order of the passes matters exactly for texts with an angle bracket. */
  lemma {:induction false} AmpersandLastIff(md: string)
    ensures |EscapeAmpersandLast(md)| >= |EscapeHtml(md)|
    ensures EscapeAmpersandLast(md) == EscapeHtml(md) <==> '<' !in md && '>' !in md
  {
    if md != "" {
      var c, rest := md[0], md[1..];
      AmpersandLastIff(rest);
      EscapeHead(c, rest);
      AmpersandLastHead(c, rest);
      assert md == [c] + rest;
      if c != '<' && c != '>' {
        var a, b := EscapeAmpersandLast(rest), EscapeHtml(rest);
        assert (EscapeChar(c) + a)[|EscapeChar(c)|..] == a && (EscapeChar(c) + b)[|EscapeChar(c)|..] == b;
      }
    }
  }

  // ---------- Grouping by version ----------

  datatype Release = Release(slug: string, version: string, date: string, title: string, body: string)

  function Versions(releases: seq<Release>): (versions: seq<string>)
    ensures |versions| == |releases|
    ensures forall i :: 0 <= i < |releases| ==> versions[i] == releases[i].version
  {
    if releases == [] then [] else [releases[0].version] + Versions(releases[1..])
  }

  function OfVersion(releases: seq<Release>, version: string): seq<Release> {
    if releases == [] then []
    else (if releases[0].version == version then [releases[0]] else []) + OfVersion(releases[1..], version)
  }

  lemma {:induction false} OfVersionAppend(releases: seq<Release>, release: Release, version: string)
    ensures OfVersion(releases + [release], version)
         == OfVersion(releases, version) + (if release.version == version then [release] else [])
  {
    if releases == [] {
      assert [] + [release] == [release] && [release][1..] == [];
    } else {
      assert (releases + [release])[1..] == releases[1..] + [release] && (releases + [release])[0] == releases[0];
      OfVersionAppend(releases[1..], release, version);
      ConcatAssoc(if releases[0].version == version then [releases[0]] else [], OfVersion(releases[1..], version),
                  if release.version == version then [release] else []);
    }
  }

  function HasVersion(version: string): Release -> bool {
    (r: Release) => r.version == version
  }

  /** The releases of a version, in the order in which they are visible, each as often. */
  lemma {:induction false} OfVersionSelects(releases: seq<Release>, version: string)
    ensures IsSelection(releases, OfVersion(releases, version), HasVersion(version))
  {
    if releases == [] {
      SelectNothing(HasVersion(version));
    } else {
      OfVersionSelects(releases[1..], version);
      SelectFirst(releases[0], releases[1..], OfVersion(releases[1..], version), HasVersion(version));
      assert [releases[0]] + releases[1..] == releases;
    }
  }

  ghost predicate GroupValues(values: map<string, seq<Release>>, releases: seq<Release>) {
    forall v: string :: OfVersion(releases, v) == if v in values then values[v] else []
  }

  ghost predicate Grouped(m: JsMap<string, seq<Release>>, releases: seq<Release>) {
    WellFormed(m) && m.keys == FirstSeen(Versions(releases)) && GroupValues(m.values, releases)
  }

  lemma VersionsAppend(releases: seq<Release>, r: Release)
    ensures FirstSeen(Versions(releases + [r])) ==
            FirstSeen(Versions(releases)) + (if r.version in FirstSeen(Versions(releases)) then [] else [r.version])
  {
    assert Versions(releases + [r]) == Versions(releases) + [r.version];
    FirstSeenAppend(Versions(releases), r.version);
  }

  lemma GroupOneValue(values: map<string, seq<Release>>, releases: seq<Release>, r: Release)
    requires GroupValues(values, releases)
    ensures GroupValues(values[r.version := OfVersion(releases, r.version) + [r]], releases + [r])
  {
    var values' := values[r.version := OfVersion(releases, r.version) + [r]];
    forall v: string
      ensures OfVersion(releases + [r], v) == if v in values' then values'[v] else []
    {
      OfVersionAppend(releases, r, v);
      assert OfVersion(releases, v) == if v in values then values[v] else [];
    }
  }

  lemma GroupOne(m: JsMap<string, seq<Release>>, releases: seq<Release>, r: Release)
    requires Grouped(m, releases)
    ensures Grouped(Set(m, r.version, OfVersion(releases, r.version) + [r]), releases + [r])
  {
    GroupOneValue(m.values, releases, r);
    VersionsAppend(releases, r);
  }

  /** The loop over the visible releases: one group per version, in first-seen order, each holding
      exactly the releases of its version in their order. */
  method VersionGroups(visible: seq<Release>) returns (groups: seq<(string, seq<Release>)>)
    ensures |groups| == |FirstSeen(Versions(visible))|
    ensures forall i :: 0 <= i < |groups| ==>
              && groups[i].0 == FirstSeen(Versions(visible))[i]
              && groups[i].1 == OfVersion(visible, groups[i].0)
  {
    var m := BuildGroups(visible);
    groups := Entries(m);
  }

  method BuildGroups(visible: seq<Release>) returns (m: JsMap<string, seq<Release>>)
    ensures Grouped(m, visible)
  {
    m := JsMap([], map[]);
    for k := 0 to |visible|
      invariant Grouped(m, visible[..k])
    {
      var r := visible[k];
      assert visible[..k + 1] == visible[..k] + [r];
      GroupOne(m, visible[..k], r);
      var existing := if r.version in m.values then m.values[r.version] else [];
      assert OfVersion(visible[..k], r.version) == existing;
      m := Set(m, r.version, existing + [r]);
    }
    assert visible[..|visible|] == visible;
  }

  /** The groups partition the releases: none is empty, none holds another version, and every release is in one. */
  lemma {:induction false} OfVersionExact(releases: seq<Release>, version: string)
    ensures forall r :: r in OfVersion(releases, version) <==> r in releases && r.version == version
    ensures OfVersion(releases, version) != [] <==> version in FirstSeen(Versions(releases))
    ensures multiset(OfVersion(releases, version)) <= multiset(releases)
  {
    FirstSeenSpec(Versions(releases));
    if releases != [] {
      OfVersionExact(releases[1..], version);
      FirstSeenSpec(Versions(releases[1..]));
      assert releases == [releases[0]] + releases[1..];
      assert Versions(releases) == [releases[0].version] + Versions(releases[1..]);
    }
  }
}
