/**
 API path templates such as `/nodes/{node}/qemu/{vmid}`: the text rewriting that turns one into a
 regular expression, and what that expression accepts and captures.
 */
module PathTemplate {
  import opened Common
  import opened Regex
  import Json

  /** The number `i` as it appears in a group name. */
  function GroupName(i: nat): string {
    "p" + Json.PrintNat(i)
  }

  // ----------------------------------------------- the source's rewriting

  /** The names found by matching `\{([^}]+)\}` over the text from left to right. */
  function ParamNames(text: string): seq<string>
    decreases |text|
  {
    if text == "" then []
    else if text[0] != '{' then ParamNames(text[1..])
    else
      var close := CloseBrace(text[1..]);
      if close.None? || close.value == 0 then ParamNames(text[1..])
      else [text[1..1 + close.value]] + ParamNames(text[2 + close.value..])
  }

  /** The distance to the next `}`. */
  function CloseBrace(text: string): (r: Option<nat>)
    ensures r.Some? ==> r.value < |text| && text[r.value] == '}' && forall i :: 0 <= i < r.value ==> text[i] != '}'
    ensures r.None? ==> forall i :: 0 <= i < |text| ==> text[i] != '}'
  {
    if text == "" then None
    else if text[0] == '}' then Some(0)
    else
      var rest := CloseBrace(text[1..]);
      if rest.None? then None else Some(1 + rest.value)
  }

  lemma OccursLater(text: string, part: string, skipped: nat, i: nat)
    requires skipped <= |text| && OccursAt(text[skipped..], part, i)
    ensures OccursAt(text, part, skipped + i)
  {
    assert text[skipped..][i..i + |part|] == text[skipped + i..skipped + i + |part|];
  }

  /** Whatever the template, a name found in it is not empty, has no closing brace, and stands in the template in braces. */
  lemma {:induction false} NamesAreProper(text: string, name: string)
    requires name in ParamNames(text)
    ensures name != "" && '}' !in name && exists i: nat :: OccursAt(text, "{" + name + "}", i)
    decreases |text|
  {
    var tail := text[1..];
    var close := CloseBrace(tail);
    if text[0] == '{' && close.Some? && close.value > 0 && name == tail[..close.value] {
      assert text[..0 + |"{" + name + "}"|] == "{" + name + "}";
      assert OccursAt(text, "{" + name + "}", 0);
    } else {
      var skipped := if text[0] == '{' && close.Some? && close.value > 0 then 2 + close.value else 1;
      NamesAreProper(text[skipped..], name);
      var i: nat :| OccursAt(text[skipped..], "{" + name + "}", i);
      OccursLater(text, "{" + name + "}", skipped, i);
    }
  }

  function Needle(name: string): string {
    "\\{" + name + "\\}"
  }

  function GroupText(i: nat): string {
    "(?<" + GroupName(i) + ">[^/]+)"
  }

  /** The pattern once the parameters from the `i`-th on have been replaced, each at its first occurrence. */
  function ReplaceParams(pattern: string, names: seq<string>, i: nat): string
    requires i <= |names|
    decreases |names| - i
  {
    if i == |names| then pattern
    else ReplaceParams(ReplaceFirst(pattern, Needle(names[i]), GroupText(i)), names, i + 1)
  }

  function RegexText(template: string): string {
    "^" + ReplaceParams(Escape(template, false), ParamNames(template), 0) + "$"
  }

  /** `pathTemplateToRegex`: the loop over the parameters rewrites one local pattern. */
  method PathTemplateToRegex(template: string) returns (text: string, pathParams: seq<string>)
    ensures pathParams == ParamNames(template)
    ensures text == RegexText(template)
    ensures forall pieces :: WellFormed(pieces) && template == TemplateText(pieces) ==>
              pathParams == Names(pieces) && Parse(text) == Some(Items(pieces))
  {
    pathParams := ParamNames(template);
    var pattern := Escape(template, false);
    var index := 0;
    while index < |pathParams|
      invariant 0 <= index <= |pathParams|
      invariant ReplaceParams(pattern, pathParams, index) == ReplaceParams(Escape(template, false), pathParams, 0)
    {
      pattern := ReplaceFirst(pattern, Needle(pathParams[index]), GroupText(index));
      index := index + 1;
    }
    text := "^" + pattern + "$";
    forall pieces | WellFormed(pieces) && template == TemplateText(pieces)
      ensures pathParams == Names(pieces) && Parse(text) == Some(Items(pieces))
    {
      TemplateParses(pieces);
    }
  }

  // ------------------------------------------------------------ structure

  datatype Piece = Literal(text: string) | Param(name: string)

  /** Literal text without braces or unescaped quantifiers, and names of ordinary characters. */
  predicate WellFormedPiece(p: Piece) {
    match p
    case Literal(text) => forall i :: 0 <= i < |text| ==> text[i] != '{' && text[i] != '}' && text[i] != '*' && text[i] != '?'
    case Param(name) => name != "" && forall i :: 0 <= i < |name| ==> !IsSyntax(name[i])
  }

  predicate WellFormed(pieces: seq<Piece>) {
    forall i :: 0 <= i < |pieces| ==> WellFormedPiece(pieces[i])
  }

  function PieceText(p: Piece): string {
    if p.Literal? then p.text else "{" + p.name + "}"
  }

  function TemplateText(pieces: seq<Piece>): string {
    if pieces == [] then "" else PieceText(pieces[0]) + TemplateText(pieces[1..])
  }

  function Names(pieces: seq<Piece>): seq<string> {
    if pieces == [] then []
    else (if pieces[0].Param? then [pieces[0].name] else []) + Names(pieces[1..])
  }

  const GROUP: Item := Item(NotSlash, Plus, false, true)

  function Items(pieces: seq<Piece>): seq<Item> {
    if pieces == [] then []
    else (if pieces[0].Param? then [GROUP] else Literals(pieces[0].text)) + Items(pieces[1..])
  }

  /** The pattern with the parameters numbered below `k` replaced; `i` is the number of the next one. */
  function Render(pieces: seq<Piece>, i: nat, k: nat): string {
    if pieces == [] then ""
    else if pieces[0].Literal? then Escape(pieces[0].text, false) + Render(pieces[1..], i, k)
    else (if i < k then GroupText(i) else Needle(pieces[0].name)) + Render(pieces[1..], i + 1, k)
  }

  // --------------------------------------------- the rewriting is rendering

  lemma {:induction false} EscapeAppend(a: string, b: string)
    ensures Escape(a + b, false) == Escape(a, false) + Escape(b, false)
  {
    if a == "" {
      assert a + b == b;
    } else {
      assert (a + b)[1..] == a[1..] + b;
      EscapeAppend(a[1..], b);
    }
  }

  lemma {:induction false} EscapeOrdinary(name: string)
    requires forall i :: 0 <= i < |name| ==> !IsSyntax(name[i])
    ensures Escape(name, false) == name
  {
    if name != "" { EscapeOrdinary(name[1..]); }
  }

  lemma EscapeBrace(brace: char)
    requires brace == '{' || brace == '}'
    ensures Escape([brace], false) == ['\\', brace]
  {
    assert [brace][1..] == "" && ['\\', brace] + "" == ['\\', brace];
  }

  lemma EscapeParam(name: string)
    requires forall i :: 0 <= i < |name| ==> !IsSyntax(name[i])
    ensures Escape("{" + name + "}", false) == Needle(name)
  {
    EscapeOrdinary(name);
    EscapeBrace('{');
    EscapeBrace('}');
    hide Escape;
    EscapeAppend("{" + name, "}");
    EscapeAppend("{", name);
    assert ['{'] == "{" && ['}'] == "}";
  }

  lemma {:induction false} EscapeTemplate(pieces: seq<Piece>, i: nat)
    requires WellFormed(pieces)
    ensures Escape(TemplateText(pieces), false) == Render(pieces, i, 0)
  {
    if pieces != [] {
      EscapeAppend(PieceText(pieces[0]), TemplateText(pieces[1..]));
      if pieces[0].Param? {
        EscapeParam(pieces[0].name);
        EscapeTemplate(pieces[1..], i + 1);
      } else {
        EscapeTemplate(pieces[1..], i);
      }
    }
  }

  predicate NoBrace(s: string) {
    forall i :: 0 <= i < |s| ==> s[i] != '{'
  }

  lemma {:induction false} EscapeNoBrace(text: string)
    requires NoBrace(text)
    ensures NoBrace(Escape(text, false))
  {
    if text != "" { EscapeNoBrace(text[1..]); }
  }

  lemma {:induction false} PrintNatDigits(n: nat)
    ensures forall i :: 0 <= i < |Json.PrintNat(n)| ==> Json.IsDigit(Json.PrintNat(n)[i])
  {
    if n >= 10 { PrintNatDigits(n / 10); }
  }

  lemma GroupNoBrace(i: nat)
    ensures NoBrace(GroupText(i))
  {
    PrintNatDigits(i);
  }

  /** `text` reads `before`, then `middle`, then `after`. */
  predicate Reads(text: string, before: string, middle: string, after: string) {
    text == before + middle + after
  }

  lemma ReadsLater(first: string, text: string, before: string, middle: string, after: string)
    requires Reads(text, before, middle, after)
    ensures Reads(first + text, first + before, middle, after)
  {
    Regroup(first, before, middle, after);
  }

  /** Everything before the `k`-th parameter is free of braces once the earlier ones are replaced. */
  lemma {:induction false} RenderSplit(pieces: seq<Piece>, i: nat, k: nat) returns (before: string, after: string)
    requires WellFormed(pieces) && i <= k < i + |Names(pieces)|
    ensures NoBrace(before)
    ensures Reads(Render(pieces, i, k), before, Needle(Names(pieces)[k - i]), after)
    ensures Reads(Render(pieces, i, k + 1), before, GroupText(k), after)
  {
    hide Needle, GroupText, Escape, Reads;
    if pieces[0].Literal? {
      EscapeNoBrace(pieces[0].text);
      var first := Escape(pieces[0].text, false);
      var b, a := RenderSplit(pieces[1..], i, k);
      before, after := first + b, a;
      ReadsLater(first, Render(pieces[1..], i, k), b, Needle(Names(pieces)[k - i]), a);
      ReadsLater(first, Render(pieces[1..], i, k + 1), b, GroupText(k), a);
    } else if i == k {
      before, after := "", Render(pieces[1..], i + 1, k);
      RenderAhead(pieces[1..], i + 1, k, k + 1);
      ReadsFirst(Needle(pieces[0].name), after);
      ReadsFirst(GroupText(k), after);
    } else {
      GroupNoBrace(i);
      var b, a := RenderSplit(pieces[1..], i + 1, k);
      before, after := GroupText(i) + b, a;
      ReadsLater(GroupText(i), Render(pieces[1..], i + 1, k), b, Needle(Names(pieces)[k - i]), a);
      ReadsLater(GroupText(i), Render(pieces[1..], i + 1, k + 1), b, GroupText(k), a);
    }
  }

  lemma ReadsFirst(middle: string, after: string)
    ensures Reads(middle + after, "", middle, after)
  {
    assert "" + middle == middle;
  }

  lemma Regroup(first: string, b: string, middle: string, a: string)
    ensures first + (b + middle + a) == first + b + middle + a
  {
  }

  /** Which parameters count as replaced does not matter past the last of them. */
  lemma {:induction false} RenderAhead(pieces: seq<Piece>, i: nat, k: nat, l: nat)
    requires k <= i && l <= i
    ensures Render(pieces, i, k) == Render(pieces, i, l)
  {
    if pieces != [] {
      RenderAhead(pieces[1..], if pieces[0].Param? then i + 1 else i, k, l);
    }
  }

  lemma ReplaceAfterBraceFree(before: string, name: string, replacement: string, after: string)
    requires NoBrace(before)
    ensures ReplaceFirst(before + Needle(name) + after, Needle(name), replacement) == before + replacement + after
  {
    var needle := Needle(name);
    var hay := before + needle + after;
    assert needle[0] == '\\' && needle[1] == '{';
    assert hay[|before|..|before| + |needle|] == needle;
    assert OccursAt(hay, needle, |before|);
    forall i: nat | i < |before| ensures !OccursAt(hay, needle, i) {
      assert hay[i + 1] == if i + 1 < |before| then before[i + 1] else needle[0];
      assert i + |needle| <= |hay| ==> hay[i..i + |needle|][1] == hay[i + 1];
    }
    var at := IndexOf(hay, needle);
    assert at == Some(|before|);
    assert hay[..|before|] == before && hay[|before| + |needle|..] == after;
  }

  lemma {:induction false} ReplaceAll(pieces: seq<Piece>, k: nat)
    requires WellFormed(pieces) && k <= |Names(pieces)|
    ensures ReplaceParams(Render(pieces, 0, k), Names(pieces), k) == Render(pieces, 0, |Names(pieces)|)
    decreases |Names(pieces)| - k
  {
    if k < |Names(pieces)| {
      var before, after := RenderSplit(pieces, 0, k);
      ReplaceAfterBraceFree(before, Names(pieces)[k], GroupText(k), after);
      ReplaceAll(pieces, k + 1);
    }
  }

  /** Each parameter's brace is the first one left, so its name is found where it stands. */
  lemma {:induction false} NamesFound(pieces: seq<Piece>)
    requires WellFormed(pieces)
    ensures ParamNames(TemplateText(pieces)) == Names(pieces)
  {
    if pieces != [] {
      var rest := TemplateText(pieces[1..]);
      NamesFound(pieces[1..]);
      if pieces[0].Literal? {
        SkipLiteral(pieces[0].text, rest);
      } else {
        NameFirst(pieces[0].name, rest);
      }
    }
  }

  lemma NameFirst(name: string, rest: string)
    requires name != "" && forall i :: 0 <= i < |name| ==> !IsSyntax(name[i])
    ensures ParamNames("{" + name + "}" + rest) == [name] + ParamNames(rest)
  {
    var text := "{" + name + "}" + rest;
    NameParts(name, rest);
    FirstClose(name, rest);
    hide CloseBrace, IsSyntax;
  }

  lemma NameParts(name: string, rest: string)
    ensures var text := "{" + name + "}" + rest;
            text[0] == '{' && text[1..] == name + "}" + rest && text[1..1 + |name|] == name && text[2 + |name|..] == rest
  {
  }

  lemma {:induction false} SkipLiteral(text: string, rest: string)
    requires forall i :: 0 <= i < |text| ==> text[i] != '{'
    ensures ParamNames(text + rest) == ParamNames(rest)
  {
    if text == "" {
      assert text + rest == rest;
    } else {
      assert (text + rest)[1..] == text[1..] + rest;
      SkipLiteral(text[1..], rest);
    }
  }

  lemma FirstClose(name: string, rest: string)
    requires forall i :: 0 <= i < |name| ==> !IsSyntax(name[i])
    ensures CloseBrace(name + "}" + rest) == Some(|name|)
  {
    var text := name + "}" + rest;
    assert text[|name|] == '}';
    assert forall i :: 0 <= i < |name| ==> text[i] == name[i];
  }

  // --------------------------------------------- the expression as it parses

  lemma {:induction false} SkipGroupName(name: string, rest: string)
    requires forall i :: 0 <= i < |name| ==> name[i] != '>'
    ensures SkipName(name + ">" + rest) == Some(rest)
  {
    var t := name + ">" + rest;
    if name == "" {
      assert t[1..] == rest;
    } else {
      assert t[1..] == name[1..] + ">" + rest;
      SkipGroupName(name[1..], rest);
    }
  }

  lemma ParseGroup(i: nat, rest: string)
    requires NoQuantifierAhead(rest)
    ensures ParseItems(GroupText(i) + rest) == Prepend([GROUP], ParseItems(rest))
  {
    var t := GroupText(i) + rest;
    PrintNatDigits(i);
    var name := GroupName(i);
    SkipGroupName(name, "[^/]+)" + rest);
    assert t[3..] == name + ">" + ("[^/]+)" + rest);
    assert Begins(t, "(?<") && t != "$";
    GroupBody(rest);
    var after := ")" + rest;
    assert after[1..] == rest;
    hide ParseQuantified, SkipName, GroupText, Json.PrintNat;
  }

  lemma GroupBody(rest: string)
    ensures ParseQuantified("[^/]+)" + rest, true) == Some(Parsed(GROUP, ")" + rest))
  {
    var t := "[^/]+)" + rest;
    assert t[..4] == "[^/]" && t[4..] == "+)" + rest;
    assert ("+)" + rest)[1..] == ")" + rest;
  }

  /** Text that is parsed in front of the items a rest gives. */
  predicate ParsesTo(text: string, items: seq<Item>) {
    ParseItems(text) == Some(items) && NoQuantifierAhead(text)
  }

  lemma GroupParsed(i: nat, rest: string, items: seq<Item>)
    requires ParsesTo(rest, items)
    ensures ParsesTo(GroupText(i) + rest, [GROUP] + items)
  {
    GroupStart(i);
    hide ParseItems, GroupText;
    ParseGroup(i, rest);
    assert (GroupText(i) + rest)[0] == GroupText(i)[0];
  }

  lemma LiteralParsed(text: string, rest: string, items: seq<Item>)
    requires ParsesTo(rest, items) && forall i :: 0 <= i < |text| ==> text[i] != '*' && text[i] != '?'
    ensures ParsesTo(Escape(text, false) + rest, Literals(text) + items)
  {
    hide ParseItems, Escape, Literals;
    ParseLiterals(text, false, rest);
  }

  lemma {:induction false} ParseRendered(pieces: seq<Piece>, i: nat, k: nat)
    requires WellFormed(pieces) && k == i + |Names(pieces)|
    ensures ParsesTo(Render(pieces, i, k) + "$", Items(pieces))
  {
    hide ParseItems, GroupText, Escape, Literals;
    if pieces == [] {
      NothingRendered(i, k);
    } else {
      hide ParsesTo;
      if pieces[0].Param? {
        ParseRendered(pieces[1..], i + 1, k);
        GroupParsed(i, Render(pieces[1..], i + 1, k) + "$", Items(pieces[1..]));
        TwoParts(GroupText(i), Render(pieces[1..], i + 1, k));
      } else {
        ParseRendered(pieces[1..], i, k);
        LiteralParsed(pieces[0].text, Render(pieces[1..], i, k) + "$", Items(pieces[1..]));
        TwoParts(Escape(pieces[0].text, false), Render(pieces[1..], i, k));
      }
    }
  }

  lemma NothingRendered(i: nat, k: nat)
    ensures ParsesTo(Render([], i, k) + "$", Items([]))
  {
    assert Render([], i, k) + "$" == "$";
  }

  lemma GroupStart(i: nat)
    ensures GroupText(i) != "" && GroupText(i)[0] == '('
  {
  }

  lemma TwoParts(first: string, rest: string)
    ensures first + rest + "$" == first + (rest + "$")
  {
  }

  /** Rewriting and parsing a template gives its literals and one slash-free group for each placeholder. */
  lemma TemplateParses(pieces: seq<Piece>)
    requires WellFormed(pieces)
    ensures ParamNames(TemplateText(pieces)) == Names(pieces)
    ensures Parse(RegexText(TemplateText(pieces))) == Some(Items(pieces))
  {
    NamesFound(pieces);
    EscapeTemplate(pieces, 0);
    ReplaceAll(pieces, 0);
    ParseRendered(pieces, 0, |Names(pieces)|);
    hide ParseItems, Render, ReplaceParams, Escape, ParamNames, Items, Names, TemplateText, WellFormed;
    AnchoredTail(ReplaceParams(Escape(TemplateText(pieces), false), ParamNames(TemplateText(pieces)), 0));
  }

  lemma AnchoredTail(text: string)
    ensures "^" + text + "$" != "" && ("^" + text + "$")[0] == '^' && ("^" + text + "$")[1..] == text + "$"
  {
  }

  // --------------------------------------------------- what it accepts

  /** Paths are compared as they are. */
  function Same(c: char): char { c }

  predicate Segment(value: string) {
    value != "" && '/' !in value
  }

  predicate Segments(values: seq<string>) {
    forall i :: 0 <= i < |values| ==> Segment(values[i])
  }

  /** The template with the placeholders replaced by `values` in order. */
  function Substitute(pieces: seq<Piece>, values: seq<string>): string
    requires |values| == |Names(pieces)|
  {
    if pieces == [] then ""
    else if pieces[0].Literal? then pieces[0].text + Substitute(pieces[1..], values)
    else values[0] + Substitute(pieces[1..], values[1..])
  }

  lemma GroupSpan(s: string, n: nat)
    requires n <= |s|
    ensures 1 <= n <= Most(GROUP, s, Same) <==> Segment(s[..n])
  {
    if n <= Span(NotSlash, s, Same) {
      forall i | 0 <= i < n ensures s[..n][i] != '/' {
        SpanAccepts(NotSlash, s, Same, i);
      }
    } else {
      if Segment(s[..n]) {
        assert forall i :: 0 <= i < n ==> s[i] == s[..n][i];
        SpanCovers(NotSlash, s, Same, n);
      }
    }
  }

  lemma SamePrefix(text: string, s: string)
    requires |text| <= |s| && forall i :: 0 <= i < |text| ==> Same(text[i]) == Same(s[i])
    ensures s == text + s[|text|..]
  {
    assert forall i :: 0 <= i < |text| ==> text[i] == s[i];
  }

  /** Whatever the expression captures are segments that rebuild the path. */
  lemma {:induction false} CapturesRebuild(pieces: seq<Piece>, path: string)
    requires Exec(Items(pieces), path, Same).Some?
    ensures var values := Exec(Items(pieces), path, Same).value;
            |values| == |Names(pieces)| && Segments(values) && Substitute(pieces, values) == path
  {
    if pieces != [] {
      var rest := Items(pieces[1..]);
      if pieces[0].Literal? {
        var text := pieces[0].text;
        ExecLiterals(text, rest, path, Same);
        CapturesRebuild(pieces[1..], path[|text|..]);
        hide Exec, Items, Segments;
        SamePrefix(text, path);
      } else {
        var items := [GROUP] + rest;
        assert Items(pieces) == items && items[1..] == rest;
        var n := TryDownResult(items, path, Same, Most(GROUP, path, Same));
        CapturesRebuild(pieces[1..], path[n..]);
        GroupSpan(path, n);
        var values := Exec(rest, path[n..], Same).value;
        hide Exec, TryDown;
        assert ([path[..n]] + values)[1..] == values;
        assert path == path[..n] + path[n..];
      }
    }
  }

  /** Every path made from segments is accepted. */
  lemma {:induction false} SubstitutedPathsMatch(pieces: seq<Piece>, values: seq<string>)
    requires |values| == |Names(pieces)| && Segments(values)
    ensures Test(Items(pieces), Substitute(pieces, values), Same)
  {
    if pieces != [] {
      var rest := Items(pieces[1..]);
      var path := Substitute(pieces, values);
      if pieces[0].Literal? {
        var text := pieces[0].text;
        SubstitutedPathsMatch(pieces[1..], values);
        ExecLiterals(text, rest, path, Same);
        assert path[|text|..] == Substitute(pieces[1..], values);
      } else {
        var items := [GROUP] + rest;
        assert Items(pieces) == items && items[1..] == rest;
        SubstitutedPathsMatch(pieces[1..], values[1..]);
        var n := |values[0]|;
        assert path[..n] == values[0] && path[n..] == Substitute(pieces[1..], values[1..]);
        GroupSpan(path, n);
        TestUnfold(items, path, Same);
        assert Takes(items, path, Same, n);
      }
    }
  }

  /**
   The expression built from a template's text accepts a path if and only if the path is the template with
   a non-empty slash-free string in place of each placeholder.
   */
  lemma AcceptsExactlyInstances(pieces: seq<Piece>, path: string)
    requires WellFormed(pieces)
    ensures Parse(RegexText(TemplateText(pieces))) == Some(Items(pieces))
    ensures Test(Items(pieces), path, Same)
            <==> exists values :: |values| == |Names(pieces)| && Segments(values) && Substitute(pieces, values) == path
  {
    TemplateParses(pieces);
    if Test(Items(pieces), path, Same) {
      CapturesRebuild(pieces, path);
    }
    forall values | |values| == |Names(pieces)| && Segments(values) && Substitute(pieces, values) == path
      ensures Test(Items(pieces), path, Same)
    {
      SubstitutedPathsMatch(pieces, values);
    }
  }

  /** Every placeholder fills a whole segment: a slash or the end follows it. */
  predicate WholeSegments(pieces: seq<Piece>) {
    forall i :: 0 <= i < |pieces| && pieces[i].Param? ==>
      i + 1 == |pieces| || (pieces[i + 1].Literal? && pieces[i + 1].text != "" && pieces[i + 1].text[0] == '/')
  }

  lemma SegmentEnd(a: string, b: string, restA: string, restB: string)
    requires Segment(a) && Segment(b) && a + restA == b + restB
    requires (restA == "" || restA[0] == '/') && (restB == "" || restB[0] == '/')
    ensures a == b && restA == restB
  {
    SegmentSpan(a, restA);
    SegmentSpan(b, restB);
    assert (a + restA)[..|a|] == a && (b + restB)[..|a|] == b;
    assert (a + restA)[|a|..] == restA && (b + restB)[|a|..] == restB;
  }

  /** A segment ends where the text has its first slash. */
  lemma {:induction false} SegmentSpan(a: string, rest: string)
    requires '/' !in a && (rest == "" || rest[0] == '/')
    ensures Span(NotSlash, a + rest, Same) == |a|
  {
    if a == "" {
      assert a + rest == rest;
    } else {
      assert a[0] in a && forall c :: c in a[1..] ==> c in a;
      assert (a + rest)[1..] == a[1..] + rest;
      SegmentSpan(a[1..], rest);
    }
  }

  /** With whole-segment placeholders a path is an instance in one way only, so nothing else can be captured. */
  lemma {:induction false} InstancesAreUnique(pieces: seq<Piece>, a: seq<string>, b: seq<string>)
    requires WholeSegments(pieces) && |a| == |Names(pieces)| == |b| && Segments(a) && Segments(b)
    requires Substitute(pieces, a) == Substitute(pieces, b)
    ensures a == b
  {
    if pieces != [] {
      if pieces[0].Literal? {
        var text := pieces[0].text;
        assert Substitute(pieces, a)[|text|..] == Substitute(pieces[1..], a);
        assert Substitute(pieces, b)[|text|..] == Substitute(pieces[1..], b);
        InstancesAreUnique(pieces[1..], a, b);
      } else {
        var restA, restB := Substitute(pieces[1..], a[1..]), Substitute(pieces[1..], b[1..]);
        if |pieces| > 1 {
          assert pieces[1..][0] == pieces[1];
          assert restA[0] == '/' && restB[0] == '/';
        }
        SegmentEnd(a[0], b[0], restA, restB);
        InstancesAreUnique(pieces[1..], a[1..], b[1..]);
        assert a == [a[0]] + a[1..] && b == [b[0]] + b[1..];
      }
    }
  }
}
