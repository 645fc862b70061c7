/**
 Policy selectors: patterns in which `*` is meant to be the only special character, turned into regular
 expressions. The reference is a direct recursive matcher that knows nothing of regular expressions.
 */
module Glob {
  import opened Common
  import opened Regex

  /** The second pass over an escaped pattern: every `*` becomes `.*`. */
  function ReplaceStars(text: string): string {
    if text == "" then ""
    else (if text[0] == '*' then ".*" else [text[0]]) + ReplaceStars(text[1..])
  }

  function WildcardText(pattern: string): string {
    "^" + ReplaceStars(Escape(pattern, false)) + "$"
  }

  /** `wildcardToRegExp(pattern)`; `None` when the constructor throws. */
  function WildcardToRegExp(pattern: string): Option<seq<Item>> {
    Parse(WildcardText(pattern))
  }

  /**
   Glob matching said directly: `*` stands for any run of characters, everything else for itself up to
   `canon`. With `dot` a run may not contain a line terminator.
   */
  predicate GlobMatch(pattern: string, value: string, canon: char -> char, dot: bool)
    decreases |pattern| + |value|
  {
    if pattern == "" then value == ""
    else if pattern[0] == '*' then
      GlobMatch(pattern[1..], value, canon, dot)
      || (value != "" && (dot ==> !IsLineTerminator(value[0])) && GlobMatch(pattern, value[1..], canon, dot))
    else
      value != "" && canon(pattern[0]) == canon(value[0]) && GlobMatch(pattern[1..], value[1..], canon, dot)
  }

  // -------------------------------------------------- the text as it parses

  /** The items a pattern stands for: a `?` quantifies whatever is before it, or makes a star lazy. */
  function GlobItems(p: string): Option<seq<Item>>
    decreases |p|
  {
    if p == "" then Some([])
    else if p[0] == '?' then None
    else
      var question := |p| > 1 && p[1] == '?';
      if p[0] == '*' then Prepend([Item(AnyChar, Star, question, false)], GlobItems(p[if question then 2 else 1..]))
      else if !question then Prepend([Item(Lit(p[0]), One, false, false)], GlobItems(p[1..]))
      else
        var isLazy := |p| > 2 && p[2] == '?';
        Prepend([Item(Lit(p[0]), Optional, isLazy, false)], GlobItems(p[if isLazy then 3 else 2..]))
  }

  function PieceText(c: char): string {
    if c == '*' then ".*" else EscapeChar(c, false)
  }

  /** Both passes at once: each pattern character becomes one piece of regular expression text. */
  function Body(p: string): string {
    if p == "" then "" else PieceText(p[0]) + Body(p[1..])
  }

  lemma {:induction false} TwoPassesAreOne(p: string)
    ensures ReplaceStars(Escape(p, false)) == Body(p)
  {
    if p != "" {
      TwoPassesAreOne(p[1..]);
      var rest := Escape(p[1..], false);
      if IsEscaped(p[0], false) {
        assert Escape(p, false) == ['\\'] + ([p[0]] + rest);
        StarsStep('\\', [p[0]] + rest);
        StarsStep(p[0], rest);
        assert ['\\'] + ([p[0]] + ReplaceStars(rest)) == ['\\', p[0]] + ReplaceStars(rest);
      } else {
        assert Escape(p, false) == [p[0]] + rest;
        StarsStep(p[0], rest);
      }
    }
  }

  lemma StarsStep(c: char, rest: string)
    ensures ReplaceStars([c] + rest) == (if c == '*' then ".*" else [c]) + ReplaceStars(rest)
  {
    assert ([c] + rest)[1..] == rest;
  }

  /** What stands after a pattern character: the next piece, and a quantifier exactly when that is `?`. */
  lemma NextPiece(p: string, i: nat)
    requires i <= |p|
    ensures var t := Body(p[i..]) + "$";
            t != "" && (IsQuantifier(t[0]) <==> i < |p| && p[i] == '?')
    ensures i < |p| && p[i] == '?' ==> Body(p[i..]) + "$" == "?" + (Body(p[i + 1..]) + "$")
  {
    if i < |p| {
      assert p[i..][1..] == p[i + 1..];
      assert Body(p[i..]) == PieceText(p[i]) + Body(p[i + 1..]);
    }
  }

  lemma PieceThen(c: char, rest: string)
    requires c != '?'
    ensures var t := PieceText(c) + rest;
            ParseAtom(t) == Some(Parsed(if c == '*' then AnyChar else Lit(c), if c == '*' then "*" + rest else rest))
            && !Begins(t, "(?<") && t != "$"
  {
    if c == '*' {
      var t := PieceText(c) + rest;
      assert t[1..] == "*" + rest && t[0] == '.';
      assert |t| >= 3 ==> t[..3][0] == '.';
    } else {
      ParseEscapedChar(c, false, rest, false);
    }
  }

  /** The first item of a pattern's text, given what its quantifier turns out to be. */
  lemma FirstItem(c: char, after: string, q: Quantifier, isLazy: bool, rest: string)
    requires c != '?'
    requires ParseQuantifier(if c == '*' then "*" + after else after) == Parsed((q, isLazy), rest)
    ensures ParseItems(PieceText(c) + after)
            == Prepend([Item(if c == '*' then AnyChar else Lit(c), q, isLazy, false)], ParseItems(rest))
  {
    PieceThen(c, after);
    hide ParseAtom, ParseQuantifier, PieceText, Begins;
  }

  /** The text of every pattern, with or without `?`, parses to the items above, or not at all. */
  lemma {:induction false} ParseBody(p: string)
    ensures ParseItems(Body(p) + "$") == GlobItems(p)
    decreases |p|
  {
    if p == "" {
      NothingToParse();
    } else if p[0] == '?' {
      LeadingQuestion(p);
    } else {
      ParseBody(p[1..]);
      var question := |p| > 1 && p[1] == '?';
      if question {
        ParseBody(p[2..]);
        if |p| > 2 { ParseBody(p[3..]); }
      }
      BodyStep(p);
      var after := Body(p[1..]) + "$";
      NextPiece(p, 1);
      hide ParseItems, Body, PieceText, GlobItems;
      if p[0] == '*' {
        StarItem(p, after);
      } else if question {
        QuestionItem(p, after);
      } else {
        PlainItem(p, after);
      }
    }
  }

  lemma NothingToParse()
    ensures ParseItems(Body("") + "$") == GlobItems("")
  {
    assert Body("") + "$" == "$";
  }

  /** A pattern cannot begin with a quantifier. */
  lemma LeadingQuestion(p: string)
    requires p != "" && p[0] == '?'
    ensures ParseItems(Body(p) + "$") == GlobItems(p)
  {
    var t := Body(p) + "$";
    assert t[0] == '?' && t != "$" && (|t| >= 3 ==> t[..3][0] == '?');
  }

  lemma BodyStep(p: string)
    requires p != ""
    ensures Body(p) + "$" == PieceText(p[0]) + (Body(p[1..]) + "$")
  {
    hide PieceText;
    var piece, rest := PieceText(p[0]), Body(p[1..]);
    assert piece + rest + "$" == piece + (rest + "$");
  }

  lemma StarItem(p: string, after: string)
    requires p != "" && p[0] == '*' && after != "" && (IsQuantifier(after[0]) <==> |p| > 1 && p[1] == '?')
    requires ParseItems(after) == GlobItems(p[1..])
    requires |p| > 1 && p[1] == '?' ==>
               after == "?" + (Body(p[2..]) + "$") && ParseItems(Body(p[2..]) + "$") == GlobItems(p[2..])
    ensures ParseItems(PieceText('*') + after) == GlobItems(p)
  {
    var question := |p| > 1 && p[1] == '?';
    hide ParseItems, Body, PieceText, ParseQuantifier;
    StarQuantifier(after);
    FirstItem('*', after, Star, question, if question then Body(p[2..]) + "$" else after);
  }

  lemma PlainItem(p: string, after: string)
    requires p != "" && p[0] != '*' && p[0] != '?' && after != "" && !IsQuantifier(after[0]) && (|p| > 1 ==> p[1] != '?')
    requires ParseItems(after) == GlobItems(p[1..])
    ensures ParseItems(PieceText(p[0]) + after) == GlobItems(p)
  {
    hide ParseItems, PieceText, ParseQuantifier;
    PlainQuantifier(after);
    FirstItem(p[0], after, One, false, after);
  }

  lemma QuestionItem(p: string, after: string)
    requires |p| > 1 && p[1] == '?' && p[0] != '*' && p[0] != '?'
    requires after == "?" + (Body(p[2..]) + "$")
    requires forall n: nat :: n in {2, 3} && n <= |p| ==> ParseItems(Body(p[n..]) + "$") == GlobItems(p[n..])
    ensures ParseItems(PieceText(p[0]) + after) == GlobItems(p)
  {
    var tail := Body(p[2..]) + "$";
    var isLazy := |p| > 2 && p[2] == '?';
    NextPiece(p, 2);
    QuestionQuantifier(tail);
    hide ParseItems, Body, PieceText, ParseQuantifier;
    FirstItem(p[0], after, Optional, isLazy, if isLazy then Body(p[3..]) + "$" else tail);
  }

  lemma PlainQuantifier(after: string)
    requires after != "" && !IsQuantifier(after[0])
    ensures ParseQuantifier(after) == Parsed((One, false), after)
  {
  }

  lemma StarQuantifier(after: string)
    requires after != "" && (IsQuantifier(after[0]) ==> after[0] == '?')
    ensures ParseQuantifier("*" + after) == Parsed((Star, after[0] == '?'), if after[0] == '?' then after[1..] else after)
  {
    assert ("*" + after)[1..] == after;
    assert after[0] == '?' ==> ("*" + after)[2..] == after[1..];
  }

  lemma QuestionQuantifier(tail: string)
    requires tail != "" && (IsQuantifier(tail[0]) ==> tail[0] == '?')
    ensures ParseQuantifier("?" + tail) == Parsed((Optional, tail[0] == '?'), if tail[0] == '?' then tail[1..] else tail)
  {
    assert ("?" + tail)[1..] == tail;
    assert tail[0] == '?' ==> ("?" + tail)[2..] == tail[1..];
  }

  lemma WildcardParses(pattern: string)
    ensures WildcardToRegExp(pattern) == GlobItems(pattern)
  {
    TwoPassesAreOne(pattern);
    ParseBody(pattern);
    hide ParseItems, Body, GlobItems;
    assert WildcardText(pattern)[1..] == Body(pattern) + "$";
  }

  // ------------------------------------------------------------- agreement

  predicate NoQuestion(p: string) {
    '?' !in p
  }

  /** The star takes `n` characters and the rest of the pattern matches what remains. */
  predicate StarTakes(p: string, value: string, canon: char -> char, n: nat)
    requires p != ""
  {
    n <= Span(AnyChar, value, canon) && GlobMatch(p[1..], value[n..], canon, true)
  }

  /** A star against a run of `Span` characters is the star of the direct matcher. */
  lemma {:induction false} StarAgrees(p: string, value: string, canon: char -> char)
    requires p != "" && p[0] == '*'
    ensures GlobMatch(p, value, canon, true) <==> exists n: nat :: StarTakes(p, value, canon, n)
    decreases |value|
  {
    assert value[0..] == value;
    if value == "" || IsLineTerminator(value[0]) {
      assert StarTakes(p, value, canon, 0) <==> GlobMatch(p[1..], value, canon, true);
    } else {
      StarAgrees(p, value[1..], canon);
      forall n: nat
        ensures n > 0 ==> (StarTakes(p, value, canon, n) <==> StarTakes(p, value[1..], canon, n - 1))
        ensures StarTakes(p, value, canon, 0) <==> GlobMatch(p[1..], value, canon, true)
      {
        StarShift(p, value, canon, n);
      }
      assert GlobMatch(p, value, canon, true) <==> GlobMatch(p[1..], value, canon, true) || GlobMatch(p, value[1..], canon, true);
      hide GlobMatch, StarTakes;
      StarShift(p, value, canon, 0);
      if n: nat :| StarTakes(p, value[1..], canon, n) {
        assert StarTakes(p, value, canon, n + 1);
      }
      if n: nat :| StarTakes(p, value, canon, n) {
        assert n > 0 ==> StarTakes(p, value[1..], canon, n - 1);
      }
    }
  }

  lemma StarShift(p: string, value: string, canon: char -> char, n: nat)
    requires p != "" && value != "" && !IsLineTerminator(value[0])
    ensures n > 0 ==> (StarTakes(p, value, canon, n) <==> StarTakes(p, value[1..], canon, n - 1))
    ensures StarTakes(p, value, canon, 0) <==> GlobMatch(p[1..], value, canon, true)
  {
    hide GlobMatch;
    assert value[0..] == value;
    if 0 < n <= |value| {
      assert value[1..][n - 1..] == value[n..];
    }
  }

  lemma {:induction false} ItemsAgree(p: string, value: string, canon: char -> char)
    requires NoQuestion(p)
    ensures GlobItems(p).Some?
    ensures Test(GlobItems(p).value, value, canon) <==> GlobMatch(p, value, canon, true)
    decreases |p|
  {
    if p != "" {
      assert p[0] in p && (|p| > 1 ==> p[1] in p) && forall c :: c in p[1..] ==> c in p;
      forall n: nat | n <= |value|
        ensures GlobItems(p[1..]).Some?
        ensures Test(GlobItems(p[1..]).value, value[n..], canon) <==> GlobMatch(p[1..], value[n..], canon, true)
      {
        ItemsAgree(p[1..], value[n..], canon);
      }
      ItemsAgree(p[1..], value, canon);
      var rest := GlobItems(p[1..]).value;
      if p[0] == '*' {
        var items := [Item(AnyChar, Star, false, false)] + rest;
        assert GlobItems(p) == Some(items) && items[1..] == rest;
        TestUnfold(items, value, canon);
        StarAgrees(p, value, canon);
        hide GlobMatch, Exec, GlobItems;
        assert forall n: nat :: Takes(items, value, canon, n) <==> StarTakes(p, value, canon, n);
      } else {
        ExecOne(Item(Lit(p[0]), One, false, false), rest, value, canon);
      }
    }
  }

  /**
   For every pattern without `?` and every value whatever, the regular expression agrees with the direct
   matcher in which a run of `*` may not cross a line terminator.
   */
  lemma WildcardIsGlob(pattern: string, value: string, canon: char -> char)
    requires NoQuestion(pattern)
    ensures WildcardToRegExp(pattern).Some?
    ensures Test(WildcardToRegExp(pattern).value, value, canon) <==> GlobMatch(pattern, value, canon, true)
  {
    WildcardParses(pattern);
    ItemsAgree(pattern, value, canon);
  }

  /** On values of one line that restriction is no restriction. */
  lemma {:induction false} OneLine(p: string, value: string, canon: char -> char)
    requires forall i :: 0 <= i < |value| ==> !IsLineTerminator(value[i])
    ensures GlobMatch(p, value, canon, true) == GlobMatch(p, value, canon, false)
    decreases |p| + |value|
  {
    if p != "" {
      if p[0] == '*' {
        OneLine(p[1..], value, canon);
        if value != "" { OneLine(p, value[1..], canon); }
      } else if value != "" {
        OneLine(p[1..], value[1..], canon);
      }
    }
  }

  /** A lone star takes every value of one line and no other. */
  lemma {:induction false} StarAlone(value: string, canon: char -> char)
    ensures WildcardToRegExp("*").Some?
    ensures Test(WildcardToRegExp("*").value, value, canon)
            <==> forall i :: 0 <= i < |value| ==> value[i] !in {'\n', '\r', '\U{2028}', '\U{2029}'}
    decreases |value|
  {
    WildcardIsGlob("*", value, canon);
    if value != "" {
      WildcardIsGlob("*", value[1..], canon);
      StarAlone(value[1..], canon);
      hide WildcardToRegExp, Test;
      assert "*"[1..] == "";
      assert (forall i :: 0 <= i < |value| ==> value[i] !in {'\n', '\r', '\U{2028}', '\U{2029}'})
             <==> value[0] !in {'\n', '\r', '\U{2028}', '\U{2029}'}
                  && (forall i :: 0 <= i < |value[1..]| ==> value[1..][i] !in {'\n', '\r', '\U{2028}', '\U{2029}'}) by {
        assert value == [value[0]] + value[1..];
      }
    }
  }

  // -------------------------------------------------- patterns with a `?`

  /** The pattern without its stars and question marks. */
  function Bare(p: string): string {
    if p == "" then "" else (if p[0] == '*' || p[0] == '?' then "" else [p[0]]) + Bare(p[1..])
  }

  /** An expression that parses matches its bare pattern: stars take nothing, options take their character. */
  lemma {:induction false} BareMatches(p: string, canon: char -> char)
    requires GlobItems(p).Some?
    ensures Test(GlobItems(p).value, Bare(p), canon)
    decreases |p|
  {
    if p != "" {
      var items := GlobItems(p).value;
      var question := |p| > 1 && p[1] == '?';
      var used := if p[0] == '*' then if question then 2 else 1
                  else if !question then 1 else if |p| > 2 && p[2] == '?' then 3 else 2;
      BareMatches(p[used..], canon);
      assert items[1..] == GlobItems(p[used..]).value;
      BareSkip(p, used);
      var text := Bare(p);
      TestUnfold(items, text, canon);
      var n := if p[0] == '*' then 0 else 1;
      assert text[n..] == Bare(p[used..]);
      assert p[0] != '*' ==> Span(Lit(p[0]), text, canon) >= 1;
      hide Exec, GlobItems, Bare;
      assert Takes(items, text, canon, n);
    }
  }

  lemma BareSkip(p: string, used: nat)
    requires 1 <= used <= |p| && used <= 3 && p[0] != '?' && forall i :: 1 <= i < used ==> p[i] == '?'
    ensures Bare(p) == (if p[0] == '*' then "" else [p[0]]) + Bare(p[used..])
  {
    assert Bare(p) == (if p[0] == '*' then "" else [p[0]]) + Bare(p[1..]);
    hide Bare;
    if used >= 2 { SkipQuestion(p, 1); }
    if used == 3 { SkipQuestion(p, 2); }
  }

  lemma SkipQuestion(p: string, i: nat)
    requires i < |p| && p[i] == '?'
    ensures Bare(p[i..]) == Bare(p[i + 1..])
  {
    assert p[i..][1..] == p[i + 1..];
    assert "" + Bare(p[i + 1..]) == Bare(p[i + 1..]);
  }

  lemma {:induction false} BareHasNoQuestion(p: string)
    ensures NoQuestion(Bare(p))
  {
    if p != "" { BareHasNoQuestion(p[1..]); }
  }

  /** The direct matcher wants a character for every `?` of the pattern. */
  lemma {:induction false} GlobNeedsQuestion(p: string, value: string, canon: char -> char)
    requires !NoQuestion(p) && NoQuestion(value)
    requires forall c :: canon(c) == canon('?') ==> c == '?'
    ensures !GlobMatch(p, value, canon, true)
    decreases |p| + |value|
  {
    assert p == [p[0]] + p[1..];
    if p[0] == '*' {
      GlobNeedsQuestion(p[1..], value, canon);
      if value != "" {
        assert forall c :: c in value[1..] ==> c in value;
        GlobNeedsQuestion(p, value[1..], canon);
      }
    } else if value != "" {
      assert value[0] in value && forall c :: c in value[1..] ==> c in value;
      if p[0] != '?' {
        GlobNeedsQuestion(p[1..], value[1..], canon);
      }
    }
  }

  /** The expression exists and agrees with the direct matcher on every value. */
  ghost predicate Faithful(pattern: string, canon: char -> char) {
    WildcardToRegExp(pattern).Some?
    && forall value :: Test(WildcardToRegExp(pattern).value, value, canon) <==> GlobMatch(pattern, value, canon, true)
  }

  /**
   `*` is the only special character of exactly the patterns that contain no `?`: an unescaped `?` is a
   quantifier, and then the expression either cannot be built or accepts a value it should not.
   */
  lemma FaithfulIffNoQuestion(pattern: string, canon: char -> char)
    requires forall c :: canon(c) == canon('?') ==> c == '?'
    ensures Faithful(pattern, canon) <==> NoQuestion(pattern)
  {
    if NoQuestion(pattern) {
      WildcardIsGlob(pattern, "", canon);
      forall value ensures WildcardToRegExp(pattern).Some?
        && (Test(WildcardToRegExp(pattern).value, value, canon) <==> GlobMatch(pattern, value, canon, true))
      {
        WildcardIsGlob(pattern, value, canon);
      }
      assert Faithful(pattern, canon);
    } else {
      WildcardParses(pattern);
      if GlobItems(pattern).Some? {
        BareMatches(pattern, canon);
        BareHasNoQuestion(pattern);
        GlobNeedsQuestion(pattern, Bare(pattern), canon);
        assert Test(WildcardToRegExp(pattern).value, Bare(pattern), canon);
      }
    }
  }

  // ---------------------------------------------------------- matchesPattern

  datatype SyntaxError = SyntaxError(pattern: string)

  /** `patterns.some(...)`: the first expression that cannot be built throws, unless an earlier one matched. */
  function AnyMatches(value: string, patterns: seq<string>, canon: char -> char): Result<bool, SyntaxError> {
    if patterns == [] then Ok(false)
    else
      var items := WildcardToRegExp(patterns[0]);
      if items.None? then Err(SyntaxError(patterns[0]))
      else if Test(items.value, value, canon) then Ok(true)
      else AnyMatches(value, patterns[1..], canon)
  }

  /** The pattern's expression can be built, and does not match. */
  predicate PassesOver(pattern: string, value: string, canon: char -> char) {
    WildcardToRegExp(pattern).Some? && !Test(WildcardToRegExp(pattern).value, value, canon)
  }

  /** The first pattern that is not passed over is the `i`-th. */
  predicate StopsAt(value: string, patterns: seq<string>, canon: char -> char, i: int) {
    0 <= i < |patterns| && !PassesOver(patterns[i], value, canon) && forall j :: 0 <= j < i ==> PassesOver(patterns[j], value, canon)
  }

  /** For patterns of any kind: the first that is not passed over decides, by matching or by failing to be built. */
  lemma {:induction false} FirstPatternDecides(value: string, patterns: seq<string>, canon: char -> char)
    ensures AnyMatches(value, patterns, canon) == Ok(false)
            <==> forall i :: 0 <= i < |patterns| ==> PassesOver(patterns[i], value, canon)
    ensures forall i :: StopsAt(value, patterns, canon, i) ==>
              AnyMatches(value, patterns, canon)
              == if WildcardToRegExp(patterns[i]).Some? then Ok(true) else Err(SyntaxError(patterns[i]))
  {
    hide WildcardToRegExp, Test;
    if patterns != [] {
      var rest := patterns[1..];
      FirstPatternDecides(value, rest, canon);
      assert forall j :: 0 <= j < |rest| ==> rest[j] == patterns[j + 1];
      assert (forall i :: 0 <= i < |patterns| ==> PassesOver(patterns[i], value, canon))
             <==> PassesOver(patterns[0], value, canon) && forall i :: 0 <= i < |rest| ==> PassesOver(rest[i], value, canon) by {
        if PassesOver(patterns[0], value, canon) && forall i :: 0 <= i < |rest| ==> PassesOver(rest[i], value, canon) {
          forall i | 0 <= i < |patterns| ensures PassesOver(patterns[i], value, canon) {
            assert i > 0 ==> rest[i - 1] == patterns[i];
          }
        }
      }
      forall i | StopsAt(value, patterns, canon, i)
        ensures AnyMatches(value, patterns, canon)
                == if WildcardToRegExp(patterns[i]).Some? then Ok(true) else Err(SyntaxError(patterns[i]))
      {
        if i > 0 {
          assert StopsAt(value, rest, canon, i - 1);
        }
      }
    }
  }

  function MatchesPattern(value: Option<string>, patterns: Option<seq<string>>, canon: char -> char): Result<bool, SyntaxError> {
    if patterns.None? || patterns.value == [] then Ok(true)
    else if value.None? then Ok("*" in patterns.value)
    else AnyMatches(value.value, patterns.value, canon)
  }

  /** A selector list admits a value when there is no list, or one of its patterns matches. */
  lemma MatchesPatternMeaning(value: Option<string>, patterns: Option<seq<string>>, canon: char -> char)
    requires patterns.Some? ==> forall i :: 0 <= i < |patterns.value| ==> NoQuestion(patterns.value[i])
    ensures MatchesPattern(value, patterns, canon).Ok?
    ensures MatchesPattern(value, patterns, canon).value <==>
            patterns.None? || patterns.value == []
            || (value.None? && "*" in patterns.value)
            || (value.Some? && exists p :: p in patterns.value && GlobMatch(p, value.value, canon, true))
  {
    if patterns.Some? && value.Some? {
      AnyMatchesMeaning(value.value, patterns.value, canon);
    }
  }

  lemma {:induction false} AnyMatchesMeaning(value: string, patterns: seq<string>, canon: char -> char)
    requires forall i :: 0 <= i < |patterns| ==> NoQuestion(patterns[i])
    ensures AnyMatches(value, patterns, canon).Ok?
    ensures AnyMatches(value, patterns, canon).value <==> exists p :: p in patterns && GlobMatch(p, value, canon, true)
  {
    if patterns != [] {
      WildcardIsGlob(patterns[0], value, canon);
      AnyMatchesMeaning(value, patterns[1..], canon);
      assert forall p :: p in patterns <==> p == patterns[0] || p in patterns[1..];
    }
  }
}
