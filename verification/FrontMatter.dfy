/** Reading the front matter of a changelog entry (apps/changelog/app/page.tsx), against a printer for the form that
    the entries under apps/changelog/content have. */
module FrontMatter {
  import opened Options
  import opened Sequences
  import opened Text

  datatype ReleaseType = Feature | Improvement | Fix | Security | Breaking

  datatype Fields = Fields(version: string, date: string, title: string, types: seq<ReleaseType>)

  datatype Parsed = Parsed(fm: Fields, body: string)

  const DEFAULTS := Fields("0.0.0", "1970-01-01", "Untitled", [])

  const OPENING := "---\n"
  const CLOSING := "\n---\n"

  // ---------- The reader ----------

  predicate IsKeyChar(c: char) {
    'a' <= c <= 'z' || 'A' <= c <= 'Z' || c == '_'
  }

  /** The length of the longest prefix of key characters. */
  function KeyLength(line: string): (k: nat)
    ensures k <= |line|
    ensures forall i :: 0 <= i < k ==> IsKeyChar(line[i])
    ensures k < |line| ==> !IsKeyChar(line[k])
  {
    if line == "" || !IsKeyChar(line[0]) then 0 else 1 + KeyLength(line[1..])
  }

  predicate SingleLine(s: string) {
    forall i :: 0 <= i < |s| ==> !IsLineTerminator(s[i])
  }

  /** A key, a colon, white space, and a rest on one line; the value is trimmed. */
  function ParseLine(line: string): Option<(string, string)> {
    var k := KeyLength(line);
    if k == 0 || k == |line| || line[k] != ':' then None
    else
      var rest := TrimStart(line[k + 1..]);
      if SingleLine(rest) then Some((line[..k], Trim(rest))) else None
  }

  function Record(data: map<string, string>, line: string): map<string, string> {
    match ParseLine(line)
    case None => data
    case Some((key, value)) => data[key := value]
  }

  /** Later lines override earlier ones. */
  function DataOf(lines: seq<string>): map<string, string> {
    if lines == [] then map[] else Record(DataOf(lines[..|lines| - 1]), lines[|lines| - 1])
  }

  /** Drops one opening bracket at the start and one closing bracket at the end. */
  function StripBrackets(s: string): string {
    var t := if s != "" && s[0] == '[' then s[1..] else s;
    if t != "" && t[|t| - 1] == ']' then t[..|t| - 1] else t
  }

  function Name(t: ReleaseType): string {
    match t
    case Feature => "feature"
    case Improvement => "improvement"
    case Fix => "fix"
    case Security => "security"
    case Breaking => "breaking"
  }

  function TypeNamed(s: string): Option<ReleaseType> {
    if s == "feature" then Some(Feature)
    else if s == "improvement" then Some(Improvement)
    else if s == "fix" then Some(Fix)
    else if s == "security" then Some(Security)
    else if s == "breaking" then Some(Breaking)
    else None
  }

  function ValidOnly(pieces: seq<string>): seq<ReleaseType> {
    if pieces == [] then []
    else
      match TypeNamed(Trim(pieces[0]))
      case Some(t) => [t] + ValidOnly(pieces[1..])
      case None => ValidOnly(pieces[1..])
  }

  function TypesOf(raw: string): seq<ReleaseType> {
    ValidOnly(Split(StripBrackets(raw), ','))
  }

  function Field(data: map<string, string>, key: string, fallback: string): string {
    if key in data then data[key] else fallback
  }

  function FieldsOf(data: map<string, string>): Fields {
    Fields(Field(data, "version", DEFAULTS.version), Field(data, "date", DEFAULTS.date),
           Field(data, "title", DEFAULTS.title), TypesOf(Field(data, "types", "[]")))
  }

  /** The first closing delimiter after the opening one, or -1 when the source has no front matter. */
  function ClosingAt(source: string): (at: int)
    ensures at >= 0 ==> at >= 4 && OccursAt(source, OPENING, 0) && OccursAt(source, CLOSING, at)
  {
    if OccursAt(source, OPENING, 0) then IndexOf(source, CLOSING, 4) else -1
  }

  function Parse(source: string): Parsed {
    var at := ClosingAt(source);
    if at < 0 then Parsed(DEFAULTS, source)
    else Parsed(FieldsOf(DataOf(Split(source[4..at], '\n'))), source[at + 5..])
  }

  /** The function of the source, with its loop over the lines. */
  method ParseFrontMatter(source: string) returns (parsed: Parsed)
    ensures parsed == Parse(source)
  {
    var at := ClosingAt(source);
    if at < 0 {
      return Parsed(DEFAULTS, source);
    }
    var data := ReadLines(source[4..at]);
    parsed := Parsed(FieldsOf(data), source[at + 5..]);
  }

  method ReadLines(yaml: string) returns (data: map<string, string>)
    ensures data == DataOf(Split(yaml, '\n'))
  {
    var lines := Split(yaml, '\n');
    data := map[];
    for i := 0 to |lines|
      invariant data == DataOf(lines[..i])
    {
      assert lines[..i + 1][..i] == lines[..i];
      var m := ParseLine(lines[i]);
      if m.Some? {
        data := data[m.value.0 := m.value.1];
      }
    }
    assert lines[..|lines|] == lines;
  }

  // ---------- What is taken from the lines ----------

  predicate White(s: string) {
    forall i :: 0 <= i < |s| ==> IsSpace(s[i])
  }

  predicate LettersOnly(key: string) {
    forall i :: 0 <= i < |key| ==> 'a' <= key[i] <= 'z' || 'A' <= key[i] <= 'Z' || key[i] == '_'
  }

  /** A line that says something: a key, a colon, white space, and a rest that stays on the line. */
  ghost predicate Says(line: string, key: string, space: string, rest: string) {
    && line == key + (":" + (space + rest))
    && key != "" && LettersOnly(key)
    && White(space) && (rest == "" || !IsSpace(rest[0]))
    && SingleLine(rest)
  }

  lemma {:induction false} TrimStartOf(space: string, rest: string)
    requires White(space) && (rest == "" || !IsSpace(rest[0]))
    ensures TrimStart(space + rest) == rest
  {
    if space == "" {
      assert space + rest == rest;
    } else {
      assert (space + rest)[1..] == space[1..] + rest;
      TrimStartOf(space[1..], rest);
    }
  }

  lemma SaidIsParsed(line: string, key: string, space: string, rest: string)
    requires Says(line, key, space, rest)
    ensures ParseLine(line) == Some((key, Trim(rest)))
  {
    KeyLengthOf(key, ":" + (space + rest));
    assert line[|key| + 1..] == space + rest && line[|key|] == ':';
    TrimStartOf(space, rest);
  }

  lemma AtColon(line: string, k: nat, rest: string)
    requires k < |line| && line[k] == ':' && rest == line[k + 1..]
    ensures line == line[..k] + (":" + rest)
  {
  }

  lemma TrimStartCuts(s: string)
    ensures var r := TrimStart(s);
            |r| <= |s| && s == s[..|s| - |r|] + r && (r == "" || !IsSpace(r[0])) && White(s[..|s| - |r|])
  {
    TrimStartSpec(s);
  }

  lemma ParsedIsSaid(line: string, key: string, value: string) returns (space: string, rest: string)
    requires ParseLine(line) == Some((key, value))
    ensures Says(line, key, space, rest) && value == Trim(rest)
  {
    var k := KeyLength(line);
    var behind := line[k + 1..];
    TrimStartCuts(behind);
    rest := TrimStart(behind);
    space := behind[..|behind| - |rest|];
    AtColon(line, k, behind);
  }

  /** A line is read if and only if it says something, and then gives its key and its trimmed rest. */
  lemma ParseLineIff(line: string, key: string, value: string)
    ensures ParseLine(line) == Some((key, value)) <==>
            exists space, rest :: Says(line, key, space, rest) && value == Trim(rest)
  {
    if ParseLine(line) == Some((key, value)) {
      var space, rest := ParsedIsSaid(line, key, value);
    } else {
      forall space, rest | Says(line, key, space, rest)
        ensures value != Trim(rest)
      {
        SaidIsParsed(line, key, space, rest);
      }
    }
  }

  /** At most one bracket goes at each end. */
  lemma StripsOnce(s: string)
    ensures var from := if |s| > 0 && s[0] == '[' then 1 else 0;
            StripBrackets(s) == s[from..if |s| > from && s[|s| - 1] == ']' then |s| - 1 else |s|]
  {
    assert |s| > 1 ==> s[1..][..|s| - 2] == s[1..|s| - 1];
    assert s[..|s|] == s;
  }

  predicate Gives(line: string, key: string) {
    ParseLine(line).Some? && ParseLine(line).value.0 == key
  }

  /** The last line with a key gives its value, and a key is there only if some line gives it. */
  lemma {:induction false} LastLineWins(lines: seq<string>, key: string, i: nat)
    requires i <= |lines| && (i > 0 ==> Gives(lines[i - 1], key))
    requires forall j :: i <= j < |lines| ==> !Gives(lines[j], key)
    ensures key in DataOf(lines) <==> i > 0
    ensures i > 0 ==> DataOf(lines)[key] == ParseLine(lines[i - 1]).value.1
    decreases |lines|
  {
    if i < |lines| {
      assert !Gives(lines[|lines| - 1], key);
      LastLineWins(lines[..|lines| - 1], key, i);
    }
  }

  /** A given key gives its field, and a missing one its own default. */
  lemma FieldsOrDefaults(data: map<string, string>)
    ensures var fm := FieldsOf(data);
            && fm.version == (if "version" in data then data["version"] else "0.0.0")
            && fm.date == (if "date" in data then data["date"] else "1970-01-01")
            && fm.title == (if "title" in data then data["title"] else "Untitled")
            && ("types" !in data ==> fm.types == [])
            && ("types" in data ==> fm.types == TypesOf(data["types"]))
  {
    NoTypes("[]");
  }

  lemma NoTypes(raw: string)
    requires raw == "[]"
    ensures TypesOf(raw) == []
  {
    assert raw[1..] == "]" && "]"[..0] == "";
    assert StripBrackets(raw) == "";
    NoPiece("");
  }

  function Trims(pieces: seq<string>): (r: seq<string>)
    ensures |r| == |pieces| && forall i :: 0 <= i < |r| ==> r[i] == Trim(pieces[i])
  {
    if pieces == [] then [] else [Trim(pieces[0])] + Trims(pieces[1..])
  }

  function Names(types: seq<ReleaseType>): (r: seq<string>)
    ensures |r| == |types| && forall i :: 0 <= i < |r| ==> r[i] == Name(types[i])
  {
    if types == [] then [] else [Name(types[0])] + Names(types[1..])
  }

  /** `VALID_TYPES`. */
  predicate IsTypeName(s: string) {
    s == "feature" || s == "improvement" || s == "fix" || s == "security" || s == "breaking"
  }

  function TypeName(): string -> bool {
    (s: string) => IsTypeName(s)
  }

  lemma NamedIff(s: string)
    ensures TypeNamed(s).Some? <==> IsTypeName(s)
    ensures TypeNamed(s).Some? ==> Name(TypeNamed(s).value) == s
  {
  }

  /** The types are the trimmed pieces that name a type, in their order, each as often, and all others are dropped. */
  lemma {:induction false} TypesAreNamed(pieces: seq<string>)
    ensures IsSelection(Trims(pieces), Names(ValidOnly(pieces)), TypeName())
  {
    if pieces == [] {
      SelectNothing(TypeName());
    } else {
      var first, rest := Trim(pieces[0]), ValidOnly(pieces[1..]);
      TypesAreNamed(pieces[1..]);
      NamedIff(first);
      SelectFirst(first, Trims(pieces[1..]), Names(rest), TypeName());
      NamesOf(pieces[0], pieces[1..]);
    }
  }

  lemma NamesOf(piece: string, rest: seq<string>)
    ensures Names(ValidOnly([piece] + rest)) ==
            (if IsTypeName(Trim(piece)) then [Trim(piece)] else []) + Names(ValidOnly(rest))
    ensures Trims([piece] + rest) == [Trim(piece)] + Trims(rest)
  {
    NamedIff(Trim(piece));
    assert ([piece] + rest)[1..] == rest;
    assert [] + Names(ValidOnly(rest)) == Names(ValidOnly(rest));
    if TypeNamed(Trim(piece)).Some? {
      var t := TypeNamed(Trim(piece)).value;
      assert ([t] + ValidOnly(rest))[1..] == ValidOnly(rest);
    }
  }

  // ---------- The shape that is recognised ----------

  ghost predicate Delimited(source: string, yaml: string, body: string) {
    source == OPENING + yaml + CLOSING + body
  }

  lemma DelimitedOccurs(source: string, yaml: string, body: string)
    requires Delimited(source, yaml, body)
    ensures OccursAt(source, OPENING, 0) && OccursAt(source, CLOSING, 4 + |yaml|)
    ensures source[4..4 + |yaml|] == yaml && source[4 + |yaml| + 5..] == body
  {
  }

  /** Front matter is found exactly in sources of the delimited shape, and it is the shortest possible. */
  lemma FoundIffDelimited(source: string)
    ensures ClosingAt(source) >= 0 <==> exists yaml, body :: Delimited(source, yaml, body)
    ensures ClosingAt(source) >= 0 ==>
              && Delimited(source, source[4..ClosingAt(source)], Parse(source).body)
              && forall yaml, body :: Delimited(source, yaml, body) ==> |yaml| >= ClosingAt(source) - 4
  {
    var at := ClosingAt(source);
    forall yaml, body | Delimited(source, yaml, body)
      ensures 0 <= at <= 4 + |yaml|
    {
      DelimitedOccurs(source, yaml, body);
    }
    if at >= 0 {
      assert source[0..4] == OPENING && source[at..at + 5] == CLOSING;
      assert Delimited(source, source[4..at], source[at + 5..]);
    }
  }

  /** A source without front matter is returned whole as the body, with default fields. */
  lemma UnmatchedIsBody(source: string)
    requires !exists yaml, body :: Delimited(source, yaml, body)
    ensures Parse(source) == Parsed(Fields("0.0.0", "1970-01-01", "Untitled", []), source)
  {
    FoundIffDelimited(source);
  }

  // ---------- The printer ----------

  function TypeList(types: seq<ReleaseType>): string {
    if types == [] then ""
    else if |types| == 1 then Name(types[0])
    else Name(types[0]) + ", " + TypeList(types[1..])
  }

  function Line(key: string, value: string): string {
    key + ": " + value
  }

  function Lines(fm: Fields): seq<string> {
    [Line("version", fm.version), Line("date", fm.date), Line("title", fm.title),
     Line("types", "[" + TypeList(fm.types) + "]")]
  }

  function Print(fm: Fields, body: string): string {
    OPENING + Join(Lines(fm), '\n') + CLOSING + body
  }

  predicate CleanValue(s: string) {
    IsTrimmed(s) && SingleLine(s)
  }

  predicate Clean(fm: Fields) {
    CleanValue(fm.version) && CleanValue(fm.date) && CleanValue(fm.title)
  }

  // ---------- What the reader returns is clean ----------

  lemma TrimmedPart(s: string)
    requires SingleLine(s)
    ensures CleanValue(Trim(s))
  {
    var from := TrimSpec(s);
    assert forall i :: 0 <= i < |Trim(s)| ==> Trim(s)[i] == s[from + i];
  }

  lemma {:induction false} DataIsClean(lines: seq<string>)
    ensures forall key :: key in DataOf(lines) ==> CleanValue(DataOf(lines)[key])
  {
    if lines != [] {
      DataIsClean(lines[..|lines| - 1]);
      var line := lines[|lines| - 1];
      if ParseLine(line).Some? {
        TrimmedPart(TrimStart(line[KeyLength(line) + 1..]));
      }
    }
  }

  lemma FieldsAreClean(data: map<string, string>)
    requires forall key :: key in data ==> CleanValue(data[key])
    ensures Clean(FieldsOf(data))
  {
    DefaultsAreClean();
  }

  lemma DefaultsAreClean()
    ensures Clean(DEFAULTS)
  {
  }

  lemma ParsedIsClean(source: string)
    ensures Clean(Parse(source).fm)
  {
    var at := ClosingAt(source);
    if at >= 0 {
      var lines := Split(source[4..at], '\n');
      DataIsClean(lines);
      FieldsAreClean(DataOf(lines));
    } else {
      DefaultsAreClean();
    }
  }

  // ---------- Reading what was printed ----------

  /** No line of the text after the first starts with a dash. */
  predicate NoDashedLine(yaml: string) {
    forall k :: 0 <= k < |yaml| && yaml[k] == '\n' ==> k + 1 < |yaml| && yaml[k + 1] != '-'
  }

  lemma {:induction false} JoinedNoDash(lines: seq<string>)
    requires lines != []
    requires forall i :: 0 <= i < |lines| ==> lines[i] != "" && lines[i][0] != '-' && '\n' !in lines[i]
    ensures NoDashedLine(Join(lines, '\n')) && Join(lines, '\n') != "" && Join(lines, '\n')[0] == lines[0][0]
  {
    if |lines| > 1 {
      JoinedNoDash(lines[1..]);
      var rest := Join(lines[1..], '\n');
      var yaml := Join(lines, '\n');
      forall k | 0 <= k < |yaml| && yaml[k] == '\n'
        ensures k + 1 < |yaml| && yaml[k + 1] != '-'
      {
        assert yaml == lines[0] + ['\n'] + rest;
        assert forall i :: 0 <= i < |lines[0]| ==> lines[0][i] in lines[0] && yaml[i] == lines[0][i];
        if k > |lines[0]| {
          assert yaml[k] == rest[k - |lines[0]| - 1];
        }
      }
    } else {
      assert forall k :: 0 <= k < |lines[0]| ==> lines[0][k] in lines[0];
    }
  }

  /** The closing delimiter is the printed one, even when the body has dashed lines of its own. */
  lemma ClosingFound(source: string, yaml: string, body: string)
    requires Delimited(source, yaml, body) && NoDashedLine(yaml)
    ensures ClosingAt(source) == 4 + |yaml|
  {
    DelimitedOccurs(source, yaml, body);
    forall k | 4 <= k < 4 + |yaml|
      ensures !OccursAt(source, CLOSING, k)
    {
      assert source[k] == yaml[k - 4];
      if yaml[k - 4] == '\n' {
        assert source[k + 1] == yaml[k - 3];
        DiffersAt(source, CLOSING, k, 1);
      } else {
        DiffersAt(source, CLOSING, k, 0);
      }
    }
  }

  lemma {:induction false} KeyLengthOf(key: string, rest: string)
    requires (forall i :: 0 <= i < |key| ==> IsKeyChar(key[i])) && rest != "" && !IsKeyChar(rest[0])
    ensures KeyLength(key + rest) == |key|
  {
    if key == "" {
      assert "" + rest == rest;
    } else {
      assert (key + rest)[1..] == key[1..] + rest;
      KeyLengthOf(key[1..], rest);
    }
  }

  lemma ParsePrintedLine(key: string, value: string)
    requires key != "" && (forall i :: 0 <= i < |key| ==> IsKeyChar(key[i])) && CleanValue(value)
    ensures ParseLine(Line(key, value)) == Some((key, value))
  {
    var line := Line(key, value);
    assert line == key + (": " + value);
    KeyLengthOf(key, ": " + value);
    assert line[|key| + 1..] == " " + value;
    TrimFixes(value);
    LeadStripped(value);
  }

  lemma LeadStripped(value: string)
    requires IsTrimmed(value)
    ensures TrimStart(" " + value) == value
  {
    assert (" " + value)[1..] == value;
    assert TrimStart(value) == value;
  }

  lemma NameIsPlain(t: ReleaseType)
    ensures Name(t) != "" && CleanValue(Name(t)) && ',' !in Name(t) && TypeNamed(Name(t)) == Some(t)
  {
  }

  predicate Blank(lead: string) {
    forall i :: 0 <= i < |lead| ==> lead[i] == ' '
  }

  lemma {:induction false} TrimLead(lead: string, s: string)
    requires Blank(lead) && IsTrimmed(s)
    ensures Trim(lead + s) == s
  {
    if lead == "" {
      TrimFixes(s);
      assert lead + s == s;
    } else {
      assert (lead + s)[1..] == lead[1..] + s;
      assert TrimStart(lead + s) == TrimStart(lead[1..] + s);
      TrimLead(lead[1..], s);
    }
  }

  lemma {:induction false} TypeListClean(types: seq<ReleaseType>)
    ensures SingleLine(TypeList(types))
  {
    if types != [] {
      NameIsPlain(types[0]);
      TypeListClean(types[1..]);
    }
  }

  lemma ValidOnlyCons(piece: string, t: ReleaseType, pieces: seq<string>)
    requires TypeNamed(Trim(piece)) == Some(t)
    ensures ValidOnly([piece] + pieces) == [t] + ValidOnly(pieces)
  {
    assert ([piece] + pieces)[1..] == pieces;
  }

  lemma FirstPiece(lead: string, t: ReleaseType, tail: string)
    requires Blank(lead)
    ensures ValidOnly(Split(lead + Name(t) + [','] + tail, ',')) == [t] + ValidOnly(Split(tail, ','))
    ensures ValidOnly(Split(lead + Name(t), ',')) == [t]
  {
    var head := lead + Name(t);
    NameIsPlain(t);
    TrimLead(lead, Name(t));
    SplitFirst(head, ',', tail);
    ValidOnlyCons(head, t, Split(tail, ','));
    SplitPlain(head, ',');
    ValidOnlyCons(head, t, []);
    assert [head] + [] == [head];
  }

  lemma NoPiece(lead: string)
    requires Blank(lead)
    ensures ValidOnly(Split(lead, ',')) == []
  {
    SplitPlain(lead, ',');
    TrimLead(lead, "");
    assert lead + "" == lead;
    assert [lead][1..] == [];
  }

  lemma ListShape(types: seq<ReleaseType>, lead: string)
    requires |types| > 1
    ensures lead + TypeList(types) == lead + Name(types[0]) + [','] + (" " + TypeList(types[1..]))
  {
    Regroup(lead, Name(types[0]), TypeList(types[1..]));
  }

  lemma Regroup(lead: string, name: string, rest: string)
    ensures lead + (name + ", " + rest) == lead + name + [','] + (" " + rest)
  {
    assert ", " == [','] + " ";
  }

  /** Reading the pieces of the type list; `lead` is the white space that a separator leaves. */
  lemma {:induction false} TypesReadBack(types: seq<ReleaseType>, lead: string)
    requires Blank(lead)
    ensures ValidOnly(Split(lead + TypeList(types), ',')) == types
    decreases |types|
  {
    if types == [] {
      NoPiece(lead);
      assert lead + TypeList(types) == lead;
    } else if |types| == 1 {
      FirstPiece(lead, types[0], "");
    } else {
      ListShape(types, lead);
      FirstPiece(lead, types[0], " " + TypeList(types[1..]));
      TypesReadBack(types[1..], " ");
    }
  }

  lemma Bracketed(inner: string)
    requires SingleLine(inner)
    ensures CleanValue("[" + inner + "]") && StripBrackets("[" + inner + "]") == inner
  {
    var raw := "[" + inner + "]";
    assert raw[1..] == inner + "]";
    assert raw[|raw| - 1] == ']';
  }

  lemma TypesFieldReadsBack(types: seq<ReleaseType>)
    ensures CleanValue("[" + TypeList(types) + "]")
    ensures TypesOf("[" + TypeList(types) + "]") == types
  {
    TypeListClean(types);
    Bracketed(TypeList(types));
    TypesReadBack(types, "");
    assert "" + TypeList(types) == TypeList(types);
  }

  lemma DataAppend(lines: seq<string>, line: string)
    ensures DataOf(lines + [line]) == Record(DataOf(lines), line)
  {
    assert (lines + [line])[..|lines|] == lines;
  }

  lemma FourEntries(l1: string, l2: string, l3: string, l4: string,
                    e1: (string, string), e2: (string, string), e3: (string, string), e4: (string, string))
    requires ParseLine(l1) == Some(e1) && ParseLine(l2) == Some(e2)
    requires ParseLine(l3) == Some(e3) && ParseLine(l4) == Some(e4)
    ensures DataOf([l1, l2, l3, l4]) == map[e1.0 := e1.1, e2.0 := e2.1, e3.0 := e3.1, e4.0 := e4.1]
  {
    DataAppend([], l1);
    DataAppend([l1], l2);
    DataAppend([l1, l2], l3);
    DataAppend([l1, l2, l3], l4);
    assert [] + [l1] == [l1] && [l1] + [l2] == [l1, l2] && [l1, l2] + [l3] == [l1, l2, l3];
    assert [l1, l2, l3] + [l4] == [l1, l2, l3, l4];
  }

  /** Four printed lines are read as four entries. */
  lemma FourLines(version: string, date: string, title: string, types: string)
    requires CleanValue(version) && CleanValue(date) && CleanValue(title) && CleanValue(types)
    ensures DataOf([Line("version", version), Line("date", date), Line("title", title), Line("types", types)])
         == map["version" := version, "date" := date, "title" := title, "types" := types]
  {
    ParsePrintedLine("version", version);
    ParsePrintedLine("date", date);
    ParsePrintedLine("title", title);
    ParsePrintedLine("types", types);
    FourEntries(Line("version", version), Line("date", date), Line("title", title), Line("types", types),
                ("version", version), ("date", date), ("title", title), ("types", types));
  }

  lemma PrintedData(fm: Fields)
    requires Clean(fm)
    ensures FieldsOf(DataOf(Lines(fm))) == fm
  {
    var raw := "[" + TypeList(fm.types) + "]";
    TypesFieldReadsBack(fm.types);
    FourLines(fm.version, fm.date, fm.title, raw);
  }

  lemma LineShape(fm: Fields)
    requires Clean(fm)
    ensures forall i :: 0 <= i < 4 ==> Lines(fm)[i] != "" && Lines(fm)[i][0] != '-' && '\n' !in Lines(fm)[i]
  {
    TypeListClean(fm.types);
    assert '\n' !in fm.version && '\n' !in fm.date && '\n' !in fm.title && '\n' !in TypeList(fm.types);
  }

  /** Printing a clean front matter before any body and reading it gives the record and exactly that body back. */
  lemma PrintReadsBack(fm: Fields, body: string)
    requires Clean(fm)
    ensures Parse(Print(fm, body)) == Parsed(fm, body)
  {
    var yaml := Join(Lines(fm), '\n');
    LineShape(fm);
    JoinedNoDash(Lines(fm));
    ClosingFound(Print(fm, body), yaml, body);
    DelimitedOccurs(Print(fm, body), yaml, body);
    SplitJoin(Lines(fm), '\n');
    PrintedData(fm);
  }

  /** A printed record reads back if and only if its values are trimmed and on one line. */
  lemma PrintReadsBackIff(fm: Fields, body: string)
    ensures Parse(Print(fm, body)) == Parsed(fm, body) <==> Clean(fm)
  {
    if Clean(fm) {
      PrintReadsBack(fm, body);
    } else {
      ParsedIsClean(Print(fm, body));
    }
  }
}
