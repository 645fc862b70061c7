/** The marker format of the offline boot inspection: what its script prints, and the parser of that output. */
module BootDiagnostics {
  import opened Common
  import Text

  const MOUNT: string := "__RCMCP_MOUNT__:"
  const ERROR: string := "__RCMCP_ERROR__:"
  const BEGIN: string := "__RCMCP_BEGIN__:"
  const END: string := "__RCMCP_END__:"

  predicate IsMarker(line: string) {
    MOUNT <= line || ERROR <= line || BEGIN <= line || END <= line
  }

  /** `text.split(/\r?\n/)`. */
  function SplitLines(s: string): (r: seq<string>)
    ensures r != []
  {
    if s == "" then [""]
    else if s[0] == '\n' then [""] + SplitLines(s[1..])
    else if |s| > 1 && s[0] == '\r' && s[1] == '\n' then [""] + SplitLines(s[2..])
    else
      var rest := SplitLines(s[1..]);
      [[s[0]] + rest[0]] + rest[1..]
  }

  function Join(lines: seq<string>): string {
    if lines == [] then "" else if |lines| == 1 then lines[0] else lines[0] + "\n" + Join(lines[1..])
  }

  // -------------------------------------------------------------- scanner

  datatype Scan = Scan(
    sections: map<string, string>, errors: seq<string>, mountSource: Option<string>,
    current: Option<string>, buffer: seq<string>)

  const Start := Scan(map[], [], None, None, [])

  function NonEmpty(s: string): Option<string> {
    if s == "" then None else Some(s)
  }

  /** What one line does. */
  function ScanLine(s: Scan, line: string): Scan {
    if MOUNT <= line then s.(mountSource := NonEmpty(Text.Trim(line[|MOUNT|..])))
    else if ERROR <= line then s.(errors := s.errors + [Text.Trim(line[|ERROR|..])])
    else if BEGIN <= line then s.(current := Some(Text.Trim(line[|BEGIN|..])), buffer := [])
    else if END <= line then
      var key := Text.Trim(line[|END|..]);
      if s.current == Some(key) then
        s.(sections := s.sections[key := Text.Trim(Join(s.buffer))], current := None, buffer := [])
      else s
    else if s.current.Some? && s.current.value != "" then s.(buffer := s.buffer + [line])
    else s
  }

  function ScanLines(s: Scan, lines: seq<string>): Scan
    decreases |lines|
  {
    if lines == [] then s else ScanLines(ScanLine(s, lines[0]), lines[1..])
  }

  datatype Inspection = Inspection(
    supported: bool, mountSource: Option<string>, bootstrapStack: string, osRelease: Option<string>,
    sections: map<string, string>, errors: seq<string>)

  function FirstNonBlank(lines: seq<string>): string {
    if lines == [] then "unknown"
    else if Text.Trim(lines[0]) != "" then Text.Trim(lines[0])
    else FirstNonBlank(lines[1..])
  }

  /** `r` is the first line that is not blank, trimmed, or `unknown` when all are blank. */
  ghost predicate IsFirstNonBlank(lines: seq<string>, r: string) {
    if forall i :: 0 <= i < |lines| ==> Text.Trim(lines[i]) == "" then r == "unknown"
    else exists i :: 0 <= i < |lines| && r == Text.Trim(lines[i]) != "" && forall j :: 0 <= j < i ==> Text.Trim(lines[j]) == ""
  }

  lemma {:induction false} FirstNonBlankMeaning(lines: seq<string>)
    ensures IsFirstNonBlank(lines, FirstNonBlank(lines))
  {
    hide Text.Trim;
    if lines != [] {
      FirstNonBlankMeaning(lines[1..]);
      if Text.Trim(lines[0]) == "" {
        assert forall i :: 0 < i < |lines| ==> lines[i] == lines[1..][i - 1];
        if i :| 0 <= i < |lines[1..]| && FirstNonBlank(lines) == Text.Trim(lines[1..][i]) != ""
                && forall j :: 0 <= j < i ==> Text.Trim(lines[1..][j]) == "" {
          assert lines[i + 1] == lines[1..][i];
        }
      }
    }
  }

  /** Joining is the inverse of splitting: the lines that were joined are those that splitting finds. */
  lemma {:induction false} JoinedLinesSplit(lines: seq<string>)
    requires lines != [] && forall i :: 0 <= i < |lines| ==> LineOk(lines[i], i == |lines| - 1)
    ensures SplitLines(Join(lines)) == lines
  {
    if |lines| == 1 {
      OneLineSplit(lines[0]);
    } else {
      assert forall i :: 0 <= i < |lines| - 1 ==> lines[1..][i] == lines[i + 1];
      SplitFirst(lines[0], false, Join(lines[1..]));
      hide SplitLines;
      JoinedLinesSplit(lines[1..]);
      assert lines == [lines[0]] + lines[1..];
    }
  }

  lemma {:induction false} OneLineSplit(line: string)
    requires LineOk(line, true)
    ensures SplitLines(line) == [line]
  {
    if line != "" {
      OneLineSplit(line[1..]);
      assert line == [line[0]] + line[1..];
    }
  }

  function SectionOf(sections: map<string, string>, key: string): Option<string> {
    if key in sections then Some(sections[key]) else None
  }

  /** `parseOfflineVmBootInspection`. */
  method Parse(stdout: string, stderr: string) returns (r: Inspection)
    ensures var scan := ScanLines(Start, SplitLines(stdout));
            && r.sections == scan.sections && r.mountSource == scan.mountSource
            && r.errors == scan.errors + (if Text.Trim(stderr) == "" then [] else [Text.Trim(stderr)])
            && r.supported == (r.errors == [] || "OS_RELEASE" in r.sections)
            && r.osRelease == SectionOf(r.sections, "OS_RELEASE")
            && IsFirstNonBlank(SplitLines(if "BOOTSTRAP_STACK" in r.sections then r.sections["BOOTSTRAP_STACK"] else ""),
                               r.bootstrapStack)
  {
    hide Text.Trim, Join, SplitLines, IsFirstNonBlank, FirstNonBlank;
    var sections: map<string, string> := map[];
    var errors: seq<string> := [];
    var lines := SplitLines(stdout);
    var currentSection: Option<string> := None;
    var currentBuffer: seq<string> := [];
    var mountSource: Option<string> := None;
    var i := 0;
    assert lines[0..] == lines;
    while i < |lines|
      invariant 0 <= i <= |lines|
      invariant ScanLines(Scan(sections, errors, mountSource, currentSection, currentBuffer), lines[i..])
                == ScanLines(Start, lines)
    {
      var line := lines[i];
      assert lines[i..][0] == line && lines[i..][1..] == lines[i + 1..];
      i := i + 1;
      if MOUNT <= line {
        mountSource := NonEmpty(Text.Trim(line[|MOUNT|..]));
        continue;
      }
      if ERROR <= line {
        errors := errors + [Text.Trim(line[|ERROR|..])];
        continue;
      }
      if BEGIN <= line {
        currentSection := Some(Text.Trim(line[|BEGIN|..]));
        currentBuffer := [];
        continue;
      }
      if END <= line {
        var key := Text.Trim(line[|END|..]);
        if currentSection == Some(key) {
          sections := sections[key := Text.Trim(Join(currentBuffer))];
          currentSection := None;
          currentBuffer := [];
        }
        continue;
      }
      if currentSection.Some? && currentSection.value != "" {
        currentBuffer := currentBuffer + [line];
      }
    }
    assert lines[i..] == [];
    if Text.Trim(stderr) != "" {
      errors := errors + [Text.Trim(stderr)];
    }
    var stackLines := SplitLines(if "BOOTSTRAP_STACK" in sections then sections["BOOTSTRAP_STACK"] else "");
    FirstNonBlankMeaning(stackLines);
    var stack := FirstNonBlank(stackLines);
    r := Inspection(errors == [] || "OS_RELEASE" in sections, mountSource, stack,
                    SectionOf(sections, "OS_RELEASE"), sections, errors);
  }

  // -------------------------------------------------------------- printer

  /** A line that does not open a section, nor close the one that is open. */
  datatype Line = Plain(text: string) | MountLine(source: string) | ErrorLine(message: string) | OtherEnd(key: string)

  /** A closed section with what follows it up to the next one, or a section that is never closed. */
  datatype Chunk =
    | Section(key: string, body: seq<Line>, after: seq<Line>)
    | Abandoned(key: string, body: seq<Line>)

  function LineText(l: Line): string {
    match l
    case Plain(text) => text
    case MountLine(source) => "__RCMCP_MOUNT__:" + source
    case ErrorLine(message) => "__RCMCP_ERROR__:" + message
    case OtherEnd(key) => "__RCMCP_END__:" + key
  }

  function LineTexts(ls: seq<Line>): seq<string> {
    if ls == [] then [] else [LineText(ls[0])] + LineTexts(ls[1..])
  }

  function ChunkTexts(c: Chunk): seq<string> {
    if c.Section? then ["__RCMCP_BEGIN__:" + c.key] + LineTexts(c.body) + ["__RCMCP_END__:" + c.key] + LineTexts(c.after)
    else ["__RCMCP_BEGIN__:" + c.key] + LineTexts(c.body)
  }

  function AllTexts(cs: seq<Chunk>): seq<string> {
    if cs == [] then [] else ChunkTexts(cs[0]) + AllTexts(cs[1..])
  }

  /** Each line ends in LF or in CRLF, as `crlf` has it for that line. */
  function PrintLines(lines: seq<string>, crlf: seq<bool>): string
    requires |crlf| == |lines|
  {
    if lines == [] then "" else lines[0] + (if crlf[0] then "\r\n" else "\n") + PrintLines(lines[1..], crlf[1..])
  }

  predicate LineOk(line: string, crlf: bool) {
    (forall i :: 0 <= i < |line| ==> line[i] != '\n')
    && (!crlf && line != "" ==> line[|line| - 1] != '\r')
  }

  predicate LinesOk(lines: seq<string>, crlf: seq<bool>)
    requires |crlf| == |lines|
  {
    forall i :: 0 <= i < |lines| ==> LineOk(lines[i], crlf[i])
  }

  /** Plain lines do not start with a marker, and other ends name another key. */
  predicate BodyOk(ls: seq<Line>, key: Option<string>) {
    forall i :: 0 <= i < |ls| ==>
      && (ls[i].Plain? ==> !IsMarker(ls[i].text))
      && (ls[i].OtherEnd? ==> Some(Text.Trim(ls[i].key)) != key)
  }

  predicate ChunkOk(c: Chunk) {
    && BodyOk(c.body, Some(Text.Trim(c.key)))
    && (c.Section? ==> BodyOk(c.after, None))
  }

  // -------------------------------------------- what parsing should yield

  function Plains(ls: seq<Line>): seq<string> {
    if ls == [] then [] else (if ls[0].Plain? then [ls[0].text] else []) + Plains(ls[1..])
  }

  function Errors(ls: seq<Line>): seq<string> {
    if ls == [] then [] else (if ls[0].ErrorLine? then [Text.Trim(ls[0].message)] else []) + Errors(ls[1..])
  }

  /** The last mount line's source, or what was known before. */
  function Mounted(ls: seq<Line>, before: Option<string>): Option<string> {
    if ls == [] then before
    else
      var source := if ls[0].MountLine? then Text.Trim(ls[0].source) else "";
      Mounted(ls[1..], if !ls[0].MountLine? then before else if source == "" then None else Some(source))
  }

  /** The lines that a section keeps: those of its body, unless its key is blank. */
  function Kept(c: Chunk): seq<string> {
    if Text.Trim(c.key) == "" then [] else Plains(c.body)
  }

  /** Every line of a chunk list that is not its begin or end line. */
  function Others(cs: seq<Chunk>): seq<Line> {
    if cs == [] then []
    else cs[0].body + (if cs[0].Section? then cs[0].after else []) + Others(cs[1..])
  }

  /** Each key's last closed body, trimmed. */
  function Bodies(cs: seq<Chunk>, before: map<string, string>): map<string, string> {
    if cs == [] then before
    else
      Bodies(cs[1..], if cs[0].Section? then before[Text.Trim(cs[0].key) := Text.Trim(Join(Kept(cs[0])))]
                      else before)
  }

  // ---------------------------------------------------------------- proof

  lemma MarkersDiffer(rest: string)
    ensures !(MOUNT <= ERROR + rest) && !(MOUNT <= BEGIN + rest) && !(ERROR <= BEGIN + rest)
    ensures !(MOUNT <= END + rest) && !(ERROR <= END + rest) && !(BEGIN <= END + rest)
  {
    assert (ERROR + rest)[8] == 'E' && (BEGIN + rest)[8] == 'B' && (END + rest)[8] == 'E' && MOUNT[8] == 'M';
    assert (END + rest)[9] == 'N' && ERROR[9] == 'R';
  }

  lemma AfterMarker(marker: string, rest: string)
    ensures marker <= marker + rest && (marker + rest)[|marker|..] == rest
  {
  }

  lemma ScanMarkers(s: Scan, rest: string)
    ensures ScanLine(s, MOUNT + rest) == s.(mountSource := NonEmpty(Text.Trim(rest)))
    ensures ScanLine(s, ERROR + rest) == s.(errors := s.errors + [Text.Trim(rest)])
    ensures ScanLine(s, BEGIN + rest) == s.(current := Some(Text.Trim(rest)), buffer := [])
    ensures ScanLine(s, END + rest)
            == if s.current == Some(Text.Trim(rest)) then
                 s.(sections := s.sections[Text.Trim(rest) := Text.Trim(Join(s.buffer))], current := None, buffer := [])
               else s
  {
    MarkersDiffer(rest);
    AfterMarker(MOUNT, rest);
    AfterMarker(ERROR, rest);
    AfterMarker(BEGIN, rest);
    AfterMarker(END, rest);
    hide Text.Trim, Join;
  }

  lemma {:induction false} ScanConcat(s: Scan, a: seq<string>, b: seq<string>)
    ensures ScanLines(s, a + b) == ScanLines(ScanLines(s, a), b)
    decreases |a|
  {
    if a == [] {
      assert a + b == b;
    } else {
      assert (a + b)[0] == a[0] && (a + b)[1..] == a[1..] + b;
      hide ScanLine;
      ScanConcat(ScanLine(s, a[0]), a[1..], b);
    }
  }

  /** The state after lines that neither open a section nor close the open one. */
  function Passed(s: Scan, ls: seq<Line>): Scan {
    s.(errors := s.errors + Errors(ls), mountSource := Mounted(ls, s.mountSource),
       buffer := if s.current.Some? && s.current.value != "" then s.buffer + Plains(ls) else s.buffer)
  }

  lemma OneLine(l: Line)
    ensures Errors([l]) == if l.ErrorLine? then [Text.Trim(l.message)] else []
    ensures Plains([l]) == if l.Plain? then [l.text] else []
    ensures forall m :: Mounted([l], m) == if l.MountLine? then NonEmpty(Text.Trim(l.source)) else m
  {
    hide Text.Trim;
    assert [l][0] == l && [l][1..] == [];
    assert forall t: seq<string> :: t + [] == t;
  }

  lemma PassOne(s: Scan, l: Line)
    requires BodyOk([l], s.current)
    ensures ScanLine(s, LineText(l)) == Passed(s, [l])
  {
    OneLine(l);
    assert [l][0] == l;
    hide Text.Trim, Join, Errors, Plains, Mounted;
    assert s.errors + [] == s.errors && s.buffer + [] == s.buffer;
    match l
    case MountLine(source) => ScanMarkers(s, source);
    case ErrorLine(message) => ScanMarkers(s, message);
    case OtherEnd(key) => ScanMarkers(s, key);
    case Plain(text) => assert !IsMarker(text);
  }

  lemma PassedUnfold(s: Scan, ls: seq<Line>)
    requires ls != []
    ensures Passed(Passed(s, [ls[0]]), ls[1..]) == Passed(s, ls)
  {
    OneLine(ls[0]);
    assert Errors(ls) == Errors([ls[0]]) + Errors(ls[1..]);
    assert Plains(ls) == Plains([ls[0]]) + Plains(ls[1..]);
    assert Mounted(ls, s.mountSource) == Mounted(ls[1..], Mounted([ls[0]], s.mountSource));
    hide Errors, Plains, Mounted;
    ThreeLists(s.errors, Errors([ls[0]]), Errors(ls[1..]));
    ThreeLists(s.buffer, Plains([ls[0]]), Plains(ls[1..]));
  }

  lemma {:induction false} PassLines(s: Scan, ls: seq<Line>)
    requires BodyOk(ls, s.current)
    ensures ScanLines(s, LineTexts(ls)) == Passed(s, ls)
    decreases |ls|
  {
    if ls == [] {
      assert s.errors + [] == s.errors && s.buffer + [] == s.buffer;
    } else {
      var texts := LineTexts(ls);
      assert texts[0] == LineText(ls[0]) && texts[1..] == LineTexts(ls[1..]);
      PassOne(s, ls[0]);
      PassedUnfold(s, ls);
      PassLines(Passed(s, [ls[0]]), ls[1..]);
      hide ScanLine, LineText, Errors, Mounted, Plains;
    }
  }

  /** What matters once a chunk is over: an abandoned section may still be open, with a buffer. */
  predicate Between(s: Scan, sections: map<string, string>, errors: seq<string>, mount: Option<string>) {
    s.sections == sections && s.errors == errors && s.mountSource == mount
  }

  lemma ScanSection(s: Scan, c: Chunk)
    requires c.Section? && ChunkOk(c)
    ensures Between(ScanLines(s, ChunkTexts(c)),
                    s.sections[Text.Trim(c.key) := Text.Trim(Join(Kept(c)))],
                    s.errors + Errors(c.body) + Errors(c.after),
                    Mounted(c.after, Mounted(c.body, s.mountSource)))
  {
    var key := Text.Trim(c.key);
    var begun := s.(current := Some(key), buffer := []);
    var filled := Passed(begun, c.body);
    var closed := filled.(sections := s.sections[key := Text.Trim(Join(filled.buffer))], current := None, buffer := []);
    assert filled.buffer == Kept(c) by { assert [] + Plains(c.body) == Plains(c.body); }
    ScanOneLine(s, BEGIN + c.key);
    ScanMarkers(s, c.key);
    PassLines(begun, c.body);
    ScanOneLine(filled, END + c.key);
    ScanMarkers(filled, c.key);
    PassLines(closed, c.after);
    hide ScanLines, ScanLine, Text.Trim, Join, Errors, Mounted, Plains, LineTexts, Kept;
    ScanConcat(s, [BEGIN + c.key], LineTexts(c.body));
    ScanConcat(s, [BEGIN + c.key] + LineTexts(c.body), [END + c.key]);
    ScanConcat(s, [BEGIN + c.key] + LineTexts(c.body) + [END + c.key], LineTexts(c.after));
  }

  lemma ScanOneLine(s: Scan, line: string)
    ensures ScanLines(s, [line]) == ScanLine(s, line)
  {
    hide ScanLine;
    assert [line][1..] == [];
  }

  lemma ScanAbandoned(s: Scan, c: Chunk)
    requires c.Abandoned? && ChunkOk(c)
    ensures Between(ScanLines(s, ChunkTexts(c)), s.sections, s.errors + Errors(c.body), Mounted(c.body, s.mountSource))
  {
    var begun := s.(current := Some(Text.Trim(c.key)), buffer := []);
    ScanOneLine(s, BEGIN + c.key);
    ScanMarkers(s, c.key);
    PassLines(begun, c.body);
    hide ScanLines, ScanLine, Text.Trim, Join, Errors, Mounted, Plains, LineTexts, Kept;
    ScanConcat(s, [BEGIN + c.key], LineTexts(c.body));
  }

  lemma {:induction false} ErrorsConcat(a: seq<Line>, b: seq<Line>)
    ensures Errors(a + b) == Errors(a) + Errors(b)
    decreases |a|
  {
    if a == [] {
      assert a + b == b;
    } else {
      assert (a + b)[0] == a[0] && (a + b)[1..] == a[1..] + b;
      ErrorsConcat(a[1..], b);
      hide Text.Trim;
    }
  }

  lemma {:induction false} MountedConcat(a: seq<Line>, b: seq<Line>, before: Option<string>)
    ensures Mounted(a + b, before) == Mounted(b, Mounted(a, before))
    decreases |a|
  {
    if a == [] {
      assert a + b == b;
    } else {
      assert (a + b)[0] == a[0] && (a + b)[1..] == a[1..] + b;
      hide Text.Trim;
      MountedConcat(a[1..], b, if a[0].MountLine? then NonEmpty(Text.Trim(a[0].source)) else before);
    }
  }

  lemma ThreeLists(a: seq<string>, b: seq<string>, c: seq<string>)
    ensures a + b + c == a + (b + c)
  {
  }

  function ChunkOthers(c: Chunk): seq<Line> {
    c.body + if c.Section? then c.after else []
  }

  function WithBody(sections: map<string, string>, c: Chunk): map<string, string> {
    if c.Section? then sections[Text.Trim(c.key) := Text.Trim(Join(Kept(c)))] else sections
  }

  lemma ScanChunk(s: Scan, c: Chunk)
    requires ChunkOk(c)
    ensures Between(ScanLines(s, ChunkTexts(c)), WithBody(s.sections, c), s.errors + Errors(ChunkOthers(c)),
                    Mounted(ChunkOthers(c), s.mountSource))
  {
    if c.Section? {
      ScanSection(s, c);
      ErrorsConcat(c.body, c.after);
      MountedConcat(c.body, c.after, s.mountSource);
      hide Errors, Mounted, Plains, Kept, Text.Trim, Join, ScanLines, ChunkTexts, BodyOk;
      ThreeLists(s.errors, Errors(c.body), Errors(c.after));
    } else {
      ScanAbandoned(s, c);
      assert ChunkOthers(c) == c.body;
      hide Errors, Mounted, Plains, Kept, Text.Trim, Join, ScanLines, ChunkTexts, BodyOk;
    }
  }

  lemma OthersUnfold(cs: seq<Chunk>)
    requires cs != []
    ensures Others(cs) == ChunkOthers(cs[0]) + Others(cs[1..])
  {
  }

  lemma {:induction false} ScanChunks(s: Scan, cs: seq<Chunk>)
    requires forall i :: 0 <= i < |cs| ==> ChunkOk(cs[i])
    ensures Between(ScanLines(s, AllTexts(cs)), Bodies(cs, s.sections), s.errors + Errors(Others(cs)),
                    Mounted(Others(cs), s.mountSource))
    decreases |cs|
  {
    if cs == [] {
      assert s.errors + [] == s.errors;
    } else {
      var first := ScanLines(s, ChunkTexts(cs[0]));
      ScanChunk(s, cs[0]);
      ScanConcat(s, ChunkTexts(cs[0]), AllTexts(cs[1..]));
      OthersUnfold(cs);
      assert Bodies(cs, s.sections) == Bodies(cs[1..], WithBody(s.sections, cs[0]));
      hide ScanLines, ChunkTexts, ChunkOk, WithBody, Errors, Mounted, Others, ChunkOthers, Bodies;
      ScanChunks(first, cs[1..]);
      ErrorsConcat(ChunkOthers(cs[0]), Others(cs[1..]));
      MountedConcat(ChunkOthers(cs[0]), Others(cs[1..]), s.mountSource);
      ThreeLists(s.errors, Errors(ChunkOthers(cs[0])), Errors(Others(cs[1..])));
    }
  }

  // ------------------------------------------------------------ splitting

  lemma {:induction false} SplitFirst(line: string, crlf: bool, rest: string)
    requires LineOk(line, crlf)
    ensures SplitLines(line + (if crlf then "\r\n" else "\n") + rest) == [line] + SplitLines(rest)
    decreases |line|
  {
    var eol := if crlf then "\r\n" else "\n";
    var s := line + eol + rest;
    if line == "" {
      assert s[|eol|..] == rest;
      assert s == eol + rest;
    } else {
      assert s[1..] == line[1..] + eol + rest;
      SplitFirst(line[1..], crlf, rest);
      assert s[0] == line[0] && (|line| > 1 ==> s[1] == line[1]) && (|line| == 1 ==> s[1] == eol[0]);
      assert line == [line[0]] + line[1..];
    }
  }

  lemma {:induction false} SplitPrinted(lines: seq<string>, crlf: seq<bool>)
    requires |crlf| == |lines| && LinesOk(lines, crlf)
    ensures SplitLines(PrintLines(lines, crlf)) == lines + [""]
    decreases |lines|
  {
    if lines != [] {
      SplitFirst(lines[0], crlf[0], PrintLines(lines[1..], crlf[1..]));
      hide SplitLines;
      SplitPrinted(lines[1..], crlf[1..]);
      assert lines + [""] == [lines[0]] + (lines[1..] + [""]);
    }
  }

  /**
   Printing any list of closed and abandoned sections, with mount, error and stray end lines anywhere, each
   line ended by LF or CRLF, and parsing the text: every key holds its last closed body, trimmed; no line of
   one section reaches another, an abandoned section contributes nothing, and mount and error lines count
   wherever they stand.
   */
  lemma PrintedSectionsParse(preamble: seq<Line>, cs: seq<Chunk>, crlf: seq<bool>)
    requires BodyOk(preamble, None) && forall i :: 0 <= i < |cs| ==> ChunkOk(cs[i])
    requires |crlf| == |LineTexts(preamble) + AllTexts(cs)| && LinesOk(LineTexts(preamble) + AllTexts(cs), crlf)
    ensures var scan := ScanLines(Start, SplitLines(PrintLines(LineTexts(preamble) + AllTexts(cs), crlf)));
            && scan.sections == Bodies(cs, map[])
            && scan.errors == Errors(preamble + Others(cs))
            && scan.mountSource == Mounted(preamble + Others(cs), None)
  {
    var texts := LineTexts(preamble) + AllTexts(cs);
    SplitPrinted(texts, crlf);
    ScanConcat(Start, texts, [""]);
    ScanConcat(Start, LineTexts(preamble), AllTexts(cs));
    PassLines(Start, preamble);
    var s := Passed(Start, preamble);
    ScanChunks(s, cs);
    LastBlank(ScanLines(s, AllTexts(cs)));
    ErrorsConcat(preamble, Others(cs));
    MountedConcat(preamble, Others(cs), None);
    assert [] + Errors(preamble) == Errors(preamble);
    hide ScanLines, SplitLines, PrintLines, Errors, Mounted, Others, LineTexts, AllTexts, Bodies;
  }

  /** The empty piece behind the last line end is at most one more line of an abandoned section. */
  lemma LastBlank(s: Scan)
    ensures var t := ScanLines(s, [""]);
            t.sections == s.sections && t.errors == s.errors && t.mountSource == s.mountSource
  {
    ScanOneLine(s, "");
  }

  /** Lists of sections alone: looking a key up in the parsed result gives the last body printed under it. */
  lemma {:induction false} BodiesLookup(cs: seq<Chunk>, before: map<string, string>, key: string)
    ensures key in Bodies(cs, before)
            <==> key in before || exists i :: 0 <= i < |cs| && ClosedUnder(cs[i], key)
    ensures forall i :: 0 <= i < |cs| && ClosedUnder(cs[i], key) && (forall j :: i < j < |cs| ==> !ClosedUnder(cs[j], key))
              ==> Bodies(cs, before)[key] == Text.Trim(Join(Kept(cs[i])))
    ensures key in before && (forall i :: 0 <= i < |cs| ==> !ClosedUnder(cs[i], key)) ==> Bodies(cs, before)[key] == before[key]
    decreases |cs|
  {
    if cs != [] {
      BodiesLookup(cs[1..], WithBody(before, cs[0]), key);
      hide Text.Trim, Join, Kept;
      assert forall i :: 0 <= i < |cs| - 1 ==> cs[1..][i] == cs[i + 1];
      assert forall i :: 0 < i < |cs| ==> cs[i] == cs[1..][i - 1];
    }
  }

  predicate ClosedUnder(c: Chunk, key: string) {
    c.Section? && Text.Trim(c.key) == key
  }

  /** A marker that begins inside another text is no marker: they begin with two underscores and an `R`. */
  lemma GluedIsPlain(last: string, rest: string)
    requires last != "" && !IsMarker(last)
    ensures !IsMarker(last + (END + rest))
  {
    NoOverlap(MOUNT, last, rest);
    NoOverlap(ERROR, last, rest);
    NoOverlap(BEGIN, last, rest);
    NoOverlap(END, last, rest);
  }

  lemma NoOverlap(marker: string, last: string, rest: string)
    requires marker in [MOUNT, ERROR, BEGIN, END] && last != "" && !(marker <= last)
    ensures !(marker <= last + (END + rest))
  {
    var glued := last + (END + rest);
    var n := |last|;
    assert glued[n] == '_' && glued[n + 1] == '_' && glued[n + 2] == 'R';
    if n < |marker| {
      UnderscoresAt(marker, n);
    } else {
      assert glued[..|marker|] == last[..|marker|];
    }
  }

  lemma UnderscoresAt(marker: string, n: nat)
    requires marker in [MOUNT, ERROR, BEGIN, END] && 0 < n < |marker|
    ensures marker[n] != '_' || (n + 1 < |marker| && marker[n + 1] != '_') || (n + 2 < |marker| && marker[n + 2] != 'R')
  {
    if n < 8 {
      assert marker[1] == '_' && marker[2] == 'R' && marker[3] == 'C' && marker[4] == 'M' && marker[5] == 'C' && marker[6] == 'P';
      assert marker[7] == '_' && marker[8] != '_';
    } else {
      assert marker[|marker| - 1] == ':' && marker[|marker| - 2] == '_' && marker[|marker| - 3] == '_';
      assert n < |marker| - 3 ==> marker[n] != '_';
    }
  }

  /** The output of a section whose last body line may lack its line end: then the end marker joins it. */
  function OutputTexts(key: string, body: seq<Line>, last: string, isEnded: bool, rest: seq<Line>): seq<string> {
    [BEGIN + key] + LineTexts(body) + (if isEnded then [last, END + key] else [last + (END + key)]) + LineTexts(rest)
  }

  /** What that output amounts to. */
  function OutputChunk(key: string, body: seq<Line>, last: string, isEnded: bool, rest: seq<Line>): Chunk {
    if isEnded then Section(key, body + [Plain(last)], rest) else Abandoned(key, body + [Plain(last + (END + key))] + rest)
  }

  lemma OutputIsChunk(key: string, body: seq<Line>, last: string, isEnded: bool, rest: seq<Line>)
    requires last != "" && !IsMarker(last)
    requires BodyOk(body, Some(Text.Trim(key))) && BodyOk(rest, Some(Text.Trim(key)))
    ensures var c := OutputChunk(key, body, last, isEnded, rest);
            ChunkOk(c) && ChunkTexts(c) == OutputTexts(key, body, last, isEnded, rest)
  {
    GluedIsPlain(last, key);
    hide IsMarker, Text.Trim;
    if isEnded {
      LineTextsConcat(body, Plain(last));
      SectionShape([BEGIN + key], LineTexts(body), last, END + key, LineTexts(rest));
    } else {
      LineTextsConcat(body, Plain(last + (END + key)));
      LineTextsAppend(body + [Plain(last + (END + key))], rest);
      AbandonedShape([BEGIN + key], LineTexts(body), [last + (END + key)], LineTexts(rest));
    }
  }

  lemma SectionShape(begin: seq<string>, body: seq<string>, last: string, end: string, rest: seq<string>)
    ensures begin + (body + [last]) + [end] + rest == begin + body + [last, end] + rest
  {
  }

  lemma AbandonedShape(begin: seq<string>, body: seq<string>, glued: seq<string>, rest: seq<string>)
    ensures begin + (body + glued + rest) == begin + body + glued + rest
  {
  }

  lemma {:induction false} LineTextsAppend(a: seq<Line>, b: seq<Line>)
    ensures LineTexts(a + b) == LineTexts(a) + LineTexts(b)
    decreases |a|
  {
    if a == [] {
      assert a + b == b;
    } else {
      assert (a + b)[0] == a[0] && (a + b)[1..] == a[1..] + b;
      hide LineText;
      LineTextsAppend(a[1..], b);
    }
  }

  lemma {:induction false} AllTextsAround(before: seq<Chunk>, c: Chunk, after: seq<Chunk>)
    ensures AllTexts(before + [c] + after) == AllTexts(before) + ChunkTexts(c) + AllTexts(after)
    decreases |before|
  {
    hide ChunkTexts;
    if before == [] {
      FirstChunk(c, after);
    } else {
      AllTextsAround(before[1..], c, after);
      FirstChunk(before[0], before[1..]);
      FirstChunk(before[0], before[1..] + [c] + after);
      hide AllTexts;
      assert [before[0]] + before[1..] == before;
      assert before + [c] + after == [before[0]] + (before[1..] + [c] + after);
      FourLists(ChunkTexts(before[0]), AllTexts(before[1..]), ChunkTexts(c), AllTexts(after));
    }
  }

  lemma FirstChunk(c: Chunk, cs: seq<Chunk>)
    ensures AllTexts([c] + cs) == ChunkTexts(c) + AllTexts(cs)
  {
    hide ChunkTexts;
    assert ([c] + cs)[1..] == cs;
  }

  lemma FourLists(a: seq<string>, b: seq<string>, c: seq<string>, d: seq<string>)
    ensures a + (b + c + d) == a + b + c + d
  {
  }

  /** An abandoned section between others changes nothing about them. */
  lemma {:induction false} BodiesSkip(before: seq<Chunk>, c: Chunk, after: seq<Chunk>, known: map<string, string>)
    requires c.Abandoned?
    ensures Bodies(before + [c] + after, known) == Bodies(before + after, known)
    decreases |before|
  {
    var all := before + [c] + after;
    if before == [] {
      assert all[0] == c && all[1..] == after && before + after == after;
    } else {
      assert all[0] == before[0] && all[1..] == before[1..] + [c] + after;
      assert (before + after)[0] == before[0] && (before + after)[1..] == before[1..] + after;
      hide Text.Trim, Join, Kept;
      BodiesSkip(before[1..], c, after, WithBody(known, before[0]));
    }
  }

  /**
   A section among any others whose last body line is ended contributes its body as it should; one whose
   last line is not ended swallows its own end marker, and the result is as if the section were not there.
   So, unless another section has its key, it is present if and only if its last body line is ended.
   */
  lemma PresentIffEnded(before: seq<Chunk>, key: string, body: seq<Line>, last: string, isEnded: bool, rest: seq<Line>,
                        after: seq<Chunk>, crlf: seq<bool>)
    requires last != "" && !IsMarker(last)
    requires BodyOk(body, Some(Text.Trim(key))) && BodyOk(rest, Some(Text.Trim(key)))
    requires (forall i :: 0 <= i < |before| ==> ChunkOk(before[i])) && forall i :: 0 <= i < |after| ==> ChunkOk(after[i])
    requires var texts := AllTexts(before) + OutputTexts(key, body, last, isEnded, rest) + AllTexts(after);
             |crlf| == |texts| && LinesOk(texts, crlf)
    ensures var texts := AllTexts(before) + OutputTexts(key, body, last, isEnded, rest) + AllTexts(after);
            var sections := ScanLines(Start, SplitLines(PrintLines(texts, crlf))).sections;
            && sections == (if isEnded then Bodies(before + [Section(key, body + [Plain(last)], rest)] + after, map[])
                            else Bodies(before + after, map[]))
            && ((forall i :: 0 <= i < |before| ==> !ClosedUnder(before[i], Text.Trim(key)))
                && (forall i :: 0 <= i < |after| ==> !ClosedUnder(after[i], Text.Trim(key)))
                ==> (Text.Trim(key) in sections <==> isEnded))
  {
    var c := OutputChunk(key, body, last, isEnded, rest);
    OutputParses(before, key, body, last, isEnded, rest, after, crlf);
    hide *;
    UnfoldChunk(key, body, last, isEnded, rest);
    if isEnded {
      PresentWith(before, c, after, Text.Trim(key));
    } else {
      BodiesSkip(before, c, after, map[]);
      if (forall i :: 0 <= i < |before| ==> !ClosedUnder(before[i], Text.Trim(key)))
         && forall i :: 0 <= i < |after| ==> !ClosedUnder(after[i], Text.Trim(key)) {
        AbsentWithout(before, after, Text.Trim(key));
      }
    }
  }

  lemma UnfoldChunk(key: string, body: seq<Line>, last: string, isEnded: bool, rest: seq<Line>)
    ensures var c := OutputChunk(key, body, last, isEnded, rest);
            && (isEnded ==> c == Section(key, body + [Plain(last)], rest) && ClosedUnder(c, Text.Trim(key)))
            && (!isEnded ==> c.Abandoned?)
  {
    hide Text.Trim;
  }

  lemma OutputParses(before: seq<Chunk>, key: string, body: seq<Line>, last: string, isEnded: bool, rest: seq<Line>,
                     after: seq<Chunk>, crlf: seq<bool>)
    requires last != "" && !IsMarker(last)
    requires BodyOk(body, Some(Text.Trim(key))) && BodyOk(rest, Some(Text.Trim(key)))
    requires (forall i :: 0 <= i < |before| ==> ChunkOk(before[i])) && forall i :: 0 <= i < |after| ==> ChunkOk(after[i])
    requires var texts := AllTexts(before) + OutputTexts(key, body, last, isEnded, rest) + AllTexts(after);
             |crlf| == |texts| && LinesOk(texts, crlf)
    ensures var texts := AllTexts(before) + OutputTexts(key, body, last, isEnded, rest) + AllTexts(after);
            ScanLines(Start, SplitLines(PrintLines(texts, crlf))).sections
            == Bodies(before + [OutputChunk(key, body, last, isEnded, rest)] + after, map[])
  {
    hide *;
    var c := OutputChunk(key, body, last, isEnded, rest);
    OutputIsChunk(key, body, last, isEnded, rest);
    AllTextsAround(before, c, after);
    AllOk(before, c, after);
    ChunksParse(before + [c] + after, crlf);
  }

  lemma AllOk(before: seq<Chunk>, c: Chunk, after: seq<Chunk>)
    requires ChunkOk(c) && (forall i :: 0 <= i < |before| ==> ChunkOk(before[i])) && forall i :: 0 <= i < |after| ==> ChunkOk(after[i])
    ensures forall i :: 0 <= i < |before + [c] + after| ==> ChunkOk((before + [c] + after)[i])
  {
    hide ChunkOk;
  }

  lemma ChunksParse(cs: seq<Chunk>, crlf: seq<bool>)
    requires forall i :: 0 <= i < |cs| ==> ChunkOk(cs[i])
    requires |crlf| == |AllTexts(cs)| && LinesOk(AllTexts(cs), crlf)
    ensures ScanLines(Start, SplitLines(PrintLines(AllTexts(cs), crlf))).sections == Bodies(cs, map[])
  {
    assert LineTexts([]) + AllTexts(cs) == AllTexts(cs);
    hide ChunkOk, LinesOk, SplitLines, PrintLines, ScanLines, Bodies;
    PrintedSectionsParse([], cs, crlf);
  }

  lemma PresentWith(before: seq<Chunk>, c: Chunk, after: seq<Chunk>, key: string)
    requires ClosedUnder(c, key)
    ensures key in Bodies(before + [c] + after, map[])
  {
    var cs := before + [c] + after;
    BodiesLookup(cs, map[], key);
    assert cs[|before|] == c;
  }

  lemma AbsentWithout(before: seq<Chunk>, after: seq<Chunk>, key: string)
    requires forall i :: 0 <= i < |before| ==> !ClosedUnder(before[i], key)
    requires forall i :: 0 <= i < |after| ==> !ClosedUnder(after[i], key)
    ensures key !in Bodies(before + after, map[])
  {
    var cs := before + after;
    BodiesLookup(cs, map[], key);
    hide ClosedUnder;
    assert forall i :: 0 <= i < |cs| ==> cs[i] == if i < |before| then before[i] else after[i - |before|];
  }

  lemma {:induction false} LineTextsConcat(a: seq<Line>, l: Line)
    ensures LineTexts(a + [l]) == LineTexts(a) + [LineText(l)]
    decreases |a|
  {
    if a == [] {
      assert a + [l] == [l] && [l][1..] == [];
    } else {
      assert (a + [l])[0] == a[0] && (a + [l])[1..] == a[1..] + [l];
      hide LineText;
      LineTextsConcat(a[1..], l);
    }
  }
}
