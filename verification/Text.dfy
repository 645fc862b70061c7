/** The string operations of the source language that several modules share. */
module Text {

  /** What `\s` matches and `trim` removes: white space and line terminators. */
  predicate IsSpace(c: char) {
    || '\t' <= c <= '\r' || c == ' ' || c == '\U{A0}' || c == '\U{1680}' || '\U{2000}' <= c <= '\U{200A}'
    || c == '\U{2028}' || c == '\U{2029}' || c == '\U{202F}' || c == '\U{205F}' || c == '\U{3000}' || c == '\U{FEFF}'
  }

  function TrimStart(s: string): string {
    if s != "" && IsSpace(s[0]) then TrimStart(s[1..]) else s
  }

  function TrimEnd(s: string): string {
    if s != "" && IsSpace(s[|s| - 1]) then TrimEnd(s[..|s| - 1]) else s
  }

  function Trim(s: string): string {
    TrimEnd(TrimStart(s))
  }

  /** `toUpperCase`, as far as ASCII letters go. */
  function ToUpper(s: string): string {
    if s == "" then ""
    else [if 'a' <= s[0] <= 'z' then (s[0] as int - 'a' as int + 'A' as int) as char else s[0]] + ToUpper(s[1..])
  }

  /** The twenty-five characters that count as white space, one by one. */
  const SPACES: string := "\t\n\U{B}\U{C}\r \U{A0}\U{1680}\U{2000}\U{2001}\U{2002}\U{2003}\U{2004}\U{2005}\U{2006}\U{2007}\U{2008}\U{2009}\U{200A}\U{2028}\U{2029}\U{202F}\U{205F}\U{3000}\U{FEFF}"

  lemma SpaceCharacters(c: char)
    ensures IsSpace(c) <==> c in SPACES
  {
    if IsSpace(c) {
      var i := SpaceIndex(c);
      assert SPACES[i] == c;
    }
  }

  lemma SpaceIndex(c: char) returns (i: nat)
    requires IsSpace(c)
    ensures i < |SPACES| && SPACES[i] == c
  {
    i := if '\t' <= c <= '\r' then c as int - 9 else if c == ' ' then 5 else if c == '\U{A0}' then 6
         else if c == '\U{1680}' then 7 else if '\U{2000}' <= c <= '\U{200A}' then 8 + c as int - 0x2000
         else if c == '\U{2028}' then 19 else if c == '\U{2029}' then 20 else if c == '\U{202F}' then 21
         else if c == '\U{205F}' then 22 else if c == '\U{3000}' then 23 else 24;
  }

  predicate Blank(s: string) {
    forall c :: c in s ==> IsSpace(c)
  }

  /** `core` neither begins nor ends with white space. */
  predicate Bare(core: string) {
    core == "" || (!IsSpace(core[0]) && !IsSpace(core[|core| - 1]))
  }

  /** What trimming means: of white space, a text with bare ends and white space, the text in the middle remains. */
  lemma TrimMeaning(before: string, core: string, after: string)
    requires Blank(before) && Bare(core) && Blank(after)
    ensures Trim(before + core + after) == core
  {
    TrimStartBlank(before, core + after);
    assert before + core + after == before + (core + after);
    if core == "" {
      TrimStartBlank(after, "");
      assert "" + after == after + "";
      assert TrimStart(core + after) == "";
    } else {
      TrimEndBlank(core, after);
    }
  }

  lemma {:induction false} TrimStartBlank(before: string, rest: string)
    requires Blank(before)
    ensures TrimStart(before + rest) == TrimStart(rest)
  {
    if before == "" {
      assert before + rest == rest;
    } else {
      assert before[0] in before && forall c :: c in before[1..] ==> c in before;
      assert (before + rest)[1..] == before[1..] + rest;
      TrimStartBlank(before[1..], rest);
    }
  }

  lemma {:induction false} TrimEndBlank(rest: string, after: string)
    requires Blank(after)
    ensures TrimEnd(rest + after) == TrimEnd(rest)
    decreases |after|
  {
    if after == "" {
      assert rest + after == rest;
    } else {
      var front := after[..|after| - 1];
      assert after[|after| - 1] in after && forall c :: c in front ==> c in after;
      assert (rest + after)[..|rest + after| - 1] == rest + front;
      TrimEndBlank(rest, front);
    }
  }

  /** Every text is of that form. */
  lemma {:induction false} TrimParts(s: string) returns (before: string, core: string, after: string)
    ensures s == before + core + after && Blank(before) && Bare(core) && Blank(after) && core == Trim(s)
  {
    if s != "" && IsSpace(s[0]) {
      before, core, after := TrimParts(s[1..]);
      before := [s[0]] + before;
    } else if s != "" && IsSpace(s[|s| - 1]) {
      before, core, after := TrimParts(s[..|s| - 1]);
      after := after + [s[|s| - 1]];
    } else {
      before, core, after := "", s, "";
    }
    TrimMeaning(before, core, after);
  }

  /** `d` is `c`, or its capital if `c` is a small ASCII letter. */
  predicate Capital(c: char, d: char) {
    if 'a' <= c <= 'z' then d as int == c as int - 32 else d == c
  }

  /** `upper` is `s` with every small ASCII letter replaced by its capital. */
  predicate UpperSpelling(s: string, upper: string) {
    |upper| == |s| && forall i :: 0 <= i < |s| ==> Capital(s[i], upper[i])
  }

  lemma {:induction false} UpperMeaning(s: string, upper: string)
    ensures upper == ToUpper(s) <==> UpperSpelling(s, upper)
  {
    if s != "" && upper != "" {
      UpperMeaning(s[1..], upper[1..]);
      assert upper == [upper[0]] + upper[1..];
      if UpperSpelling(s, upper) {
        forall i | 0 <= i < |s| - 1 ensures Capital(s[1..][i], upper[1..][i]) {
          assert Capital(s[i + 1], upper[i + 1]);
        }
        assert Capital(s[0], upper[0]);
      }
      if upper == ToUpper(s) {
        forall i | 0 <= i < |s| ensures Capital(s[i], upper[i]) {
          if i > 0 { assert Capital(s[1..][i - 1], upper[1..][i - 1]); }
        }
      }
    }
  }

  /** Trimming leaves text alone exactly when neither end is white space. */
  lemma TrimFixed(s: string)
    ensures Trim(s) == s <==> s == "" || (!IsSpace(s[0]) && !IsSpace(s[|s| - 1]))
  {
    TrimStartLength(s);
    TrimEndLength(TrimStart(s));
  }

  lemma {:induction false} TrimStartLength(s: string)
    ensures |TrimStart(s)| <= |s|
    ensures s != "" && IsSpace(s[0]) ==> |TrimStart(s)| < |s|
  {
    if s != "" && IsSpace(s[0]) { TrimStartLength(s[1..]); }
  }

  lemma {:induction false} TrimEndLength(s: string)
    ensures |TrimEnd(s)| <= |s|
    ensures s != "" && IsSpace(s[|s| - 1]) ==> |TrimEnd(s)| < |s|
  {
    if s != "" && IsSpace(s[|s| - 1]) { TrimEndLength(s[..|s| - 1]); }
  }
}
