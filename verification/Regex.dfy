/**
 The regular expressions the program builds, as the text it builds: a parser for the small part of the
 syntax that can occur in them, and a backtracking matcher with greedy and lazy quantifiers and captures.
 `None` from the parser stands for a SyntaxError or for syntax the program never builds.
 */
module Regex {
  import opened Common

  datatype Atom = Lit(c: char) | AnyChar | Digit | NotSlash

  datatype Quantifier = One | Optional | Star | Plus

  /** A quantified atom, captured as one group when `group` is set. */
  datatype Item = Item(atom: Atom, quantifier: Quantifier, isLazy: bool, group: bool)

  datatype Parsed<+T> = Parsed(value: T, rest: string)

  // --------------------------------------------------------------- parser

  /** The characters that have to be escaped to stand for themselves, quantifiers first. */
  predicate IsQuantifier(c: char) {
    c == '*' || c == '+' || c == '?'
  }

  predicate IsSyntax(c: char) {
    IsQuantifier(c) || c == '.' || c == '^' || c == '$' || c == '{' || c == '}' || c == '(' || c == ')'
    || c == '|' || c == '[' || c == ']' || c == '\\'
  }

  predicate Begins(t: string, word: string) {
    |word| <= |t| && t[..|word|] == word
  }

  function ParseAtom(t: string): (r: Option<Parsed<Atom>>)
    ensures r.Some? ==> |r.value.rest| < |t|
  {
    if t == "" then None
    else if t[0] == '.' then Some(Parsed(AnyChar, t[1..]))
    else if t[0] == '\\' then
      if |t| == 1 then None
      else if t[1] == 'd' then Some(Parsed(Digit, t[2..]))
      else if IsSyntax(t[1]) then Some(Parsed(Lit(t[1]), t[2..]))
      else None
    else if t[0] == '[' then if Begins(t, "[^/]") then Some(Parsed(NotSlash, t[4..])) else None
    else if IsSyntax(t[0]) then None
    else Some(Parsed(Lit(t[0]), t[1..]))
  }

  function ParseQuantifier(t: string): (r: Parsed<(Quantifier, bool)>)
    ensures |r.rest| <= |t|
  {
    if t == "" || !IsQuantifier(t[0]) then Parsed((One, false), t)
    else
      var q := if t[0] == '*' then Star else if t[0] == '+' then Plus else Optional;
      if |t| > 1 && t[1] == '?' then Parsed((q, true), t[2..]) else Parsed((q, false), t[1..])
  }

  function ParseQuantified(t: string, group: bool): (r: Option<Parsed<Item>>)
    ensures r.Some? ==> |r.value.rest| < |t|
  {
    var atom := ParseAtom(t);
    if atom.None? then None
    else
      var q := ParseQuantifier(atom.value.rest);
      Some(Parsed(Item(atom.value.value, q.value.0, q.value.1, group), q.rest))
  }

  /** Past the `>` that ends a group's name. */
  function SkipName(t: string): (r: Option<string>)
    ensures r.Some? ==> |r.value| < |t|
  {
    if t == "" then None else if t[0] == '>' then Some(t[1..]) else SkipName(t[1..])
  }

  /** A named group holds one quantified atom and is itself not quantified. */
  function ParseItem(t: string): (r: Option<Parsed<Item>>)
    ensures r.Some? ==> |r.value.rest| < |t|
  {
    if Begins(t, "(?<") then
      var body := SkipName(t[3..]);
      if body.None? then None
      else
        var item := ParseQuantified(body.value, true);
        if item.None? || item.value.rest == "" || item.value.rest[0] != ')' then None
        else if |item.value.rest| > 1 && IsQuantifier(item.value.rest[1]) then None
        else Some(Parsed(item.value.value, item.value.rest[1..]))
    else ParseQuantified(t, false)
  }

  /** Items up to the final `$`. */
  function ParseItems(t: string): Option<seq<Item>>
    decreases |t|
  {
    if t == "$" then Some([])
    else
      var first := ParseItem(t);
      if first.None? then None else Prepend([first.value.value], ParseItems(first.value.rest))
  }

  function Prepend(items: seq<Item>, rest: Option<seq<Item>>): Option<seq<Item>> {
    if rest.None? then None else Some(items + rest.value)
  }

  /** `new RegExp("^...$")`. */
  function Parse(text: string): Option<seq<Item>> {
    if text == "" || text[0] != '^' then None else ParseItems(text[1..])
  }

  // -------------------------------------------------------------- matcher

  predicate IsLineTerminator(c: char) {
    c == '\n' || c == '\r' || c == '\U{2028}' || c == '\U{2029}'
  }

  /** `canon` is what comparison goes by: the identity, or case folding under the `i` flag. */
  predicate Accepts(atom: Atom, c: char, canon: char -> char) {
    match atom
    case Lit(l) => canon(l) == canon(c)
    case AnyChar => !IsLineTerminator(c)
    case Digit => '0' <= c <= '9'
    case NotSlash => c != '/'
  }

  /** How many characters at the front the atom accepts. */
  function Span(atom: Atom, s: string, canon: char -> char): (n: nat)
    ensures n <= |s|
  {
    if s == "" || !Accepts(atom, s[0], canon) then 0 else 1 + Span(atom, s[1..], canon)
  }

  function Least(item: Item): nat {
    if item.quantifier.One? || item.quantifier.Plus? then 1 else 0
  }

  function Most(item: Item, s: string, canon: char -> char): (n: nat)
    ensures n <= |s|
  {
    var n := Span(item.atom, s, canon);
    if (item.quantifier.One? || item.quantifier.Optional?) && n > 1 then 1 else n
  }

  /** The captures of the first match in backtracking order that reaches the end of the text. */
  function Exec(items: seq<Item>, s: string, canon: char -> char): Option<seq<string>>
    decreases |items|, 1, 0
  {
    if items == [] then if s == "" then Some([]) else None
    else if items[0].isLazy then TryUp(items, s, canon, Least(items[0]))
    else TryDown(items, s, canon, Most(items[0], s, canon))
  }

  function Capture(item: Item, text: string): seq<string> {
    if item.group then [text] else []
  }

  function TryDown(items: seq<Item>, s: string, canon: char -> char, n: nat): Option<seq<string>>
    requires items != [] && n <= |s|
    decreases |items|, 0, n
  {
    if n < Least(items[0]) then None
    else
      var rest := Exec(items[1..], s[n..], canon);
      if rest.Some? then Some(Capture(items[0], s[..n]) + rest.value)
      else if n == 0 then None
      else TryDown(items, s, canon, n - 1)
  }

  function TryUp(items: seq<Item>, s: string, canon: char -> char, n: nat): Option<seq<string>>
    requires items != []
    decreases |items|, 0, |s| + 1 - n
  {
    if n > Most(items[0], s, canon) then None
    else
      var rest := Exec(items[1..], s[n..], canon);
      if rest.Some? then Some(Capture(items[0], s[..n]) + rest.value)
      else TryUp(items, s, canon, n + 1)
  }

  predicate Test(items: seq<Item>, s: string, canon: char -> char) {
    Exec(items, s, canon).Some?
  }

  /** The first item takes `n` characters and the others match what remains. */
  predicate Takes(items: seq<Item>, s: string, canon: char -> char, n: nat)
    requires items != []
  {
    Least(items[0]) <= n <= Most(items[0], s, canon) && Test(items[1..], s[n..], canon)
  }

  /** Backtracking finds a match exactly when there is one. */
  lemma TestUnfold(items: seq<Item>, s: string, canon: char -> char)
    requires items != []
    ensures Test(items, s, canon) <==> exists n: nat :: Takes(items, s, canon, n)
  {
    if items[0].isLazy {
      TryUpUnfold(items, s, canon, Least(items[0]));
    } else {
      TryDownUnfold(items, s, canon, Most(items[0], s, canon));
    }
  }

  lemma {:induction false} TryDownUnfold(items: seq<Item>, s: string, canon: char -> char, m: nat)
    requires items != [] && m <= Most(items[0], s, canon)
    ensures TryDown(items, s, canon, m).Some? <==> exists n: nat :: n <= m && Takes(items, s, canon, n)
    decreases m
  {
    if m >= Least(items[0]) && m > 0 {
      TryDownUnfold(items, s, canon, m - 1);
    }
    if m >= Least(items[0]) && Test(items[1..], s[m..], canon) {
      assert Takes(items, s, canon, m);
    }
  }

  lemma {:induction false} TryUpUnfold(items: seq<Item>, s: string, canon: char -> char, m: nat)
    requires items != [] && m >= Least(items[0])
    ensures TryUp(items, s, canon, m).Some? <==> exists n: nat :: n >= m && Takes(items, s, canon, n)
    decreases |s| + 1 - m
  {
    if m <= Most(items[0], s, canon) {
      TryUpUnfold(items, s, canon, m + 1);
      if Test(items[1..], s[m..], canon) {
        assert Takes(items, s, canon, m);
      }
    }
  }

  /** What a greedy match captured: some permitted number of characters and the captures of the rest. */
  lemma {:induction false} TryDownResult(items: seq<Item>, s: string, canon: char -> char, m: nat) returns (n: nat)
    requires items != [] && m <= Most(items[0], s, canon) && TryDown(items, s, canon, m).Some?
    ensures Takes(items, s, canon, n) && n <= m
    ensures TryDown(items, s, canon, m).value == Capture(items[0], s[..n]) + Exec(items[1..], s[n..], canon).value
    decreases m
  {
    if Exec(items[1..], s[m..], canon).Some? {
      n := m;
    } else {
      n := TryDownResult(items, s, canon, m - 1);
    }
  }

  lemma {:induction false} SpanAccepts(atom: Atom, s: string, canon: char -> char, i: nat)
    requires i < Span(atom, s, canon)
    ensures Accepts(atom, s[i], canon)
  {
    if i > 0 {
      SpanAccepts(atom, s[1..], canon, i - 1);
    }
  }

  lemma {:induction false} SpanCovers(atom: Atom, s: string, canon: char -> char, n: nat)
    requires n <= |s| && forall i :: 0 <= i < n ==> Accepts(atom, s[i], canon)
    ensures n <= Span(atom, s, canon)
  {
    if n > 0 {
      assert forall i :: 0 <= i < n - 1 ==> s[1..][i] == s[i + 1];
      SpanCovers(atom, s[1..], canon, n - 1);
    }
  }

  // ------------------------------------------------------------- escaping

  /** The two escaping passes of the program: both leave ordinary characters alone; one spares `*` and `?`. */
  predicate IsEscaped(c: char, all: bool) {
    IsSyntax(c) && (all || (c != '*' && c != '?'))
  }

  const SPARED: string := "*?"
  const PUNCTUATION: string := ".+^$|"
  const BRACKETS: string := "{}()[]\\"

  /** The characters put behind a backslash, listed; only one of the two passes lists the star and the question mark. */
  lemma EscapedCharacters(c: char)
    ensures IsEscaped(c, true) <==> c in PUNCTUATION || c in BRACKETS || c in SPARED
    ensures IsEscaped(c, false) <==> c in PUNCTUATION || c in BRACKETS
  {
    assert SPARED == ['*', '?'] && PUNCTUATION == ['.', '+', '^', '$', '|'];
    assert BRACKETS == ['{', '}', '(', ')', '[', ']', '\\'];
  }

  /** `text.replace(/[...]/g, "\\$&")`. */
  function Escape(text: string, all: bool): string {
    if text == "" then ""
    else (if IsEscaped(text[0], all) then ['\\', text[0]] else [text[0]]) + Escape(text[1..], all)
  }

  function Literals(text: string): seq<Item> {
    if text == "" then [] else [Item(Lit(text[0]), One, false, false)] + Literals(text[1..])
  }

  predicate NoQuantifierAhead(rest: string) {
    rest == "" || !IsQuantifier(rest[0])
  }

  function EscapeChar(c: char, all: bool): string {
    if IsEscaped(c, all) then ['\\', c] else [c]
  }

  lemma ParseEscapedChar(c: char, all: bool, rest: string, group: bool)
    requires IsEscaped(c, all) || !IsSyntax(c)
    ensures ParseAtom(EscapeChar(c, all) + rest) == Some(Parsed(Lit(c), rest))
    ensures !Begins(EscapeChar(c, all) + rest, "(?<")
    ensures EscapeChar(c, all) + rest != "$" && !IsQuantifier((EscapeChar(c, all) + rest)[0])
  {
    var t := EscapeChar(c, all) + rest;
    if IsEscaped(c, all) {
      assert t[2..] == rest;
    } else {
      assert t[1..] == rest;
    }
    assert |t| >= 3 ==> t[..3][0] == t[0];
  }

  lemma ParseOneLiteral(c: char, all: bool, rest: string)
    requires IsEscaped(c, all) || !IsSyntax(c)
    requires NoQuantifierAhead(rest)
    ensures ParseItems(EscapeChar(c, all) + rest)
            == Prepend([Item(Lit(c), One, false, false)], ParseItems(rest))
  {
    ParseEscapedChar(c, all, rest, false);
    hide ParseAtom, EscapeChar, Begins;
  }

  lemma PrependTwice(a: seq<Item>, b: seq<Item>, rest: Option<seq<Item>>)
    ensures Prepend(a, Prepend(b, rest)) == Prepend(a + b, rest)
  {
    if rest.Some? {
      assert a + (b + rest.value) == a + b + rest.value;
    }
  }

  lemma EscapeUnfold(text: string, all: bool, rest: string)
    requires text != ""
    ensures Escape(text, all) + rest == EscapeChar(text[0], all) + (Escape(text[1..], all) + rest)
  {
  }

  /** Escaped text parses to itself, character by character, in front of anything but a quantifier. */
  lemma {:induction false} ParseLiterals(text: string, all: bool, rest: string)
    requires all || forall i :: 0 <= i < |text| ==> text[i] != '*' && text[i] != '?'
    requires NoQuantifierAhead(rest)
    ensures ParseItems(Escape(text, all) + rest) == Prepend(Literals(text), ParseItems(rest))
    ensures NoQuantifierAhead(Escape(text, all) + rest)
    decreases |text|
  {
    if text == "" {
      assert Escape(text, all) + rest == rest;
      assert forall items: seq<Item> :: [] + items == items;
    } else {
      ParseLiterals(text[1..], all, rest);
      var tail := Escape(text[1..], all) + rest;
      EscapeUnfold(text, all, rest);
      ParseEscapedChar(text[0], all, tail, false);
      hide ParseItems, Escape, EscapeChar, ParseAtom;
      ParseOneLiteral(text[0], all, tail);
      PrependTwice([Item(Lit(text[0]), One, false, false)], Literals(text[1..]), ParseItems(rest));
    }
  }

  /** Literals match exactly their own text, compared by `canon`, in front of what the rest matches. */
  lemma {:induction false} ExecLiterals(text: string, items: seq<Item>, s: string, canon: char -> char)
    ensures Exec(Literals(text) + items, s, canon)
            == if |text| <= |s| && forall i :: 0 <= i < |text| ==> canon(text[i]) == canon(s[i])
               then Exec(items, s[|text|..], canon) else None
    decreases |text|
  {
    if text == "" {
      assert Literals(text) + items == items && s[0..] == s;
    } else {
      var head := Item(Lit(text[0]), One, false, false);
      var tail := Literals(text[1..]) + items;
      assert Literals(text) + items == [head] + tail;
      assert ([head] + tail)[1..] == tail;
      ExecOne(head, tail, s, canon);
      if s != "" {
        ExecLiterals(text[1..], items, s[1..], canon);
        LiteralShift(text, s, canon);
        if |text| <= |s| {
          assert s[1..][|text[1..]|..] == s[|text|..];
        }
      }
    }
  }

  lemma LiteralShift(text: string, s: string, canon: char -> char)
    requires text != "" && s != ""
    ensures (|text| <= |s| && forall i :: 0 <= i < |text| ==> canon(text[i]) == canon(s[i]))
            <==> canon(text[0]) == canon(s[0])
                 && (|text[1..]| <= |s[1..]| && forall i :: 0 <= i < |text[1..]| ==> canon(text[1..][i]) == canon(s[1..][i]))
  {
    if |text| <= |s| && canon(text[0]) == canon(s[0])
       && forall i :: 0 <= i < |text[1..]| ==> canon(text[1..][i]) == canon(s[1..][i]) {
      forall i | 0 <= i < |text| ensures canon(text[i]) == canon(s[i]) {
        if i > 0 {
          assert canon(text[1..][i - 1]) == canon(s[1..][i - 1]);
        }
      }
    }
  }

  lemma ExecOne(head: Item, tail: seq<Item>, s: string, canon: char -> char)
    requires head.quantifier.One? && !head.isLazy && !head.group
    ensures Exec([head] + tail, s, canon)
            == if s != "" && Accepts(head.atom, s[0], canon) then Exec(tail, s[1..], canon) else None
  {
    var items := [head] + tail;
    assert items[1..] == tail;
    var m := Most(head, s, canon);
    assert Exec(items, s, canon) == TryDown(items, s, canon, m);
    if m == 1 {
      var rest := Exec(tail, s[1..], canon);
      assert TryDown(items, s, canon, 0).None?;
      if rest.Some? {
        assert [] + rest.value == rest.value;
      }
    }
  }

  // ----------------------------------------------------- searching text

  predicate OccursAt(hay: string, needle: string, i: nat) {
    i + |needle| <= |hay| && hay[i..i + |needle|] == needle
  }

  /** The first place where `needle` occurs. */
  function IndexOf(hay: string, needle: string): (r: Option<nat>)
    ensures r.Some? ==> OccursAt(hay, needle, r.value) && forall i: nat :: i < r.value ==> !OccursAt(hay, needle, i)
    ensures r.None? ==> forall i: nat :: !OccursAt(hay, needle, i)
  {
    FindFrom(hay, needle, 0)
  }

  function FindFrom(hay: string, needle: string, from: nat): (r: Option<nat>)
    ensures r.Some? ==> from <= r.value && OccursAt(hay, needle, r.value)
    ensures r.Some? ==> forall i: nat :: from <= i < r.value ==> !OccursAt(hay, needle, i)
    ensures r.None? ==> forall i: nat :: from <= i ==> !OccursAt(hay, needle, i)
    decreases |hay| + 1 - from
  {
    if from + |needle| > |hay| then None
    else if OccursAt(hay, needle, from) then Some(from)
    else FindFrom(hay, needle, from + 1)
  }

  /** `hay.replace(needle, replacement)` for a string needle: the first occurrence, or nothing. */
  function ReplaceFirst(hay: string, needle: string, replacement: string): string {
    var at := IndexOf(hay, needle);
    if at.None? then hay else hay[..at.value] + replacement + hay[at.value + |needle|..]
  }
}
