/**
 `shellQuote` and `shellJoin`, read back by the tokenizer of a POSIX shell: token recognition and quote
 removal as in sections 2.2 and 2.3 of XCU chapter 2, IEEE Std 1003.1.
 */
module Shell {
  import opened Common

  /** Operators are recognised one character at a time. */
  datatype Token = Word(text: string) | Op(op: char)

  predicate IsBlank(c: char) {
    c == ' ' || c == '\t'
  }

  predicate IsOperator(c: char) {
    c == '|' || c == '&' || c == ';' || c == '<' || c == '>' || c == '(' || c == ')' || c == '\n'
  }

  /** Unquoted, these start an expansion: what the word becomes is then not fixed by the text alone. */
  predicate IsExpansion(c: char) {
    c == '$' || c == '`' || c == '*' || c == '?' || c == '['
  }

  /** At the beginning of a word, these start a comment or a tilde expansion. */
  predicate IsLeading(c: char) {
    c == '#' || c == '~'
  }

  const NUL: char := '\0'

  function Flush(word: Option<string>): seq<Token> {
    if word.Some? then [Word(word.value)] else []
  }

  function Extend(word: Option<string>, c: char): Option<string> {
    if word.Some? then Some(word.value + [c]) else Some([c])
  }

  function Prepend(tokens: seq<Token>, rest: Option<seq<Token>>): Option<seq<Token>> {
    if rest.Some? then Some(tokens + rest.value) else None
  }

  /** Outside quotes; `word` is the word being collected, if one has begun. */
  function Scan(s: string, word: Option<string>): Option<seq<Token>> {
    if s == "" then Some(Flush(word))
    else if s[0] == NUL || IsExpansion(s[0]) || (word.None? && IsLeading(s[0])) then None
    else if IsBlank(s[0]) then Prepend(Flush(word), Scan(s[1..], None))
    else if IsOperator(s[0]) then Prepend(Flush(word) + [Op(s[0])], Scan(s[1..], None))
    else if s[0] == '\'' then ScanSingle(s[1..], if word.Some? then word.value else "")
    else if s[0] == '\"' then ScanDouble(s[1..], if word.Some? then word.value else "")
    else if s[0] == '\\' then
      if |s| == 1 || s[1] == NUL then None
      else if s[1] == '\n' then Scan(s[2..], word)
      else Scan(s[2..], Extend(word, s[1]))
    else Scan(s[1..], Extend(word, s[0]))
  }

  /** Inside single quotes every character but the closing quote stands for itself. */
  function ScanSingle(s: string, word: string): Option<seq<Token>> {
    if s == "" || s[0] == NUL then None
    else if s[0] == '\'' then Scan(s[1..], Some(word))
    else ScanSingle(s[1..], word + [s[0]])
  }

  /** Inside double quotes a backslash quotes only the characters that are special there. */
  function ScanDouble(s: string, word: string): Option<seq<Token>> {
    if s == "" || s[0] == NUL || s[0] == '$' || s[0] == '`' then None
    else if s[0] == '\"' then Scan(s[1..], Some(word))
    else if s[0] == '\\' && |s| > 1 && s[1] == '\n' then ScanDouble(s[2..], word)
    else if s[0] == '\\' && |s| > 1 && (s[1] == '\"' || s[1] == '\\' || s[1] == '$' || s[1] == '`') then
      ScanDouble(s[2..], word + [s[1]])
    else ScanDouble(s[1..], word + [s[0]])
  }

  function Tokenize(s: string): Option<seq<Token>> {
    Scan(s, None)
  }

  // ------------------------------------------------------------- quoting

  /** Each single quote closes the string, adds a double-quoted single quote and opens it again. */
  function EscapeQuotes(value: string): string {
    if value == "" then ""
    else (if value[0] == '\'' then "'\"'\"'" else [value[0]]) + EscapeQuotes(value[1..])
  }

  function ShellQuote(value: string): string {
    "'" + EscapeQuotes(value) + "'"
  }

  function ShellJoin(parts: seq<string>): string {
    if parts == [] then ""
    else if |parts| == 1 then ShellQuote(parts[0])
    else ShellQuote(parts[0]) + " " + ShellJoin(parts[1..])
  }

  predicate NulFree(s: string) {
    NUL !in s
  }

  function Words(parts: seq<string>): seq<Token> {
    if parts == [] then [] else [Word(parts[0])] + Words(parts[1..])
  }

  /** One quote in the value: out of the string, `'` from between double quotes, and back in. */
  lemma ScanQuote(rest: string, word: string)
    ensures ScanSingle("'\"'\"'" + rest, word) == ScanSingle(rest, word + "'")
  {
    var s := "'\"'\"'" + rest;
    assert s[1..] == "\"'\"'" + rest;
    assert s[1..][1..] == "'\"'" + rest;
    assert s[1..][1..][1..] == "\"'" + rest;
    assert s[1..][1..][1..][1..] == "'" + rest;
    assert s[1..][1..][1..][1..][1..] == rest;
    assert ScanSingle(s, word) == Scan(s[1..], Some(word));
    assert Scan(s[1..], Some(word)) == ScanDouble(s[1..][1..], word);
    assert ScanDouble(s[1..][1..], word) == ScanDouble(s[1..][1..][1..], word + ['\'']);
    assert ScanDouble(s[1..][1..][1..], word + "'") == Scan(s[1..][1..][1..][1..], Some(word + "'"));
    assert Scan(s[1..][1..][1..][1..], Some(word + "'")) == ScanSingle(rest, word + "'");
  }

  lemma {:induction false} ScanEscaped(value: string, rest: string, word: string)
    ensures ScanSingle(EscapeQuotes(value) + "'" + rest, word)
            == if NulFree(value) then Scan(rest, Some(word + value)) else None
  {
    if value == "" {
      assert EscapeQuotes(value) + "'" + rest == "'" + rest;
      assert ("'" + rest)[1..] == rest;
      assert word + value == word;
    } else {
      var tail := EscapeQuotes(value[1..]) + "'" + rest;
      var text := EscapeQuotes(value) + "'" + rest;
      ScanEscaped(value[1..], rest, word + [value[0]]);
      assert word + [value[0]] + value[1..] == word + value;
      assert NulFree(value) <==> value[0] != NUL && NulFree(value[1..]) by { assert value == [value[0]] + value[1..]; }
      if value[0] == '\'' {
        assert text == "'\"'\"'" + tail;
        ScanQuote(tail, word);
      } else {
        assert text == [value[0]] + tail;
        assert text[1..] == tail;
      }
    }
  }

  lemma ScanOpening(text: string, word: Option<string>)
    requires text != "" && text[0] == '\''
    ensures Scan(text, word) == ScanSingle(text[1..], if word.Some? then word.value else "")
  {
  }

  /** A quoted value is read as one piece of a word, whatever it contains, unless it contains a NUL. */
  lemma ScanQuoted(value: string, rest: string, word: Option<string>)
    ensures Scan(ShellQuote(value) + rest, word)
            == if NulFree(value) then Scan(rest, Some((if word.Some? then word.value else "") + value)) else None
  {
    var text := ShellQuote(value) + rest;
    var start := if word.Some? then word.value else "";
    assert text[0] == '\'' && text[1..] == EscapeQuotes(value) + "'" + rest;
    hide Scan, ScanSingle;
    ScanOpening(text, word);
    ScanEscaped(value, rest, start);
  }

  predicate AllNulFree(parts: seq<string>) {
    forall i :: 0 <= i < |parts| ==> NulFree(parts[i])
  }

  /** The shell reads a joined argv back exactly, for every NUL-free argv and for no other. */
  lemma {:induction false} TokenizeJoin(parts: seq<string>)
    ensures Tokenize(ShellJoin(parts)) == if AllNulFree(parts) then Some(Words(parts)) else None
  {
    if parts != [] {
      TokenizeJoin(parts[1..]);
      assert AllNulFree(parts) <==> NulFree(parts[0]) && AllNulFree(parts[1..]) by {
        assert forall i :: 0 <= i < |parts| - 1 ==> parts[1..][i] == parts[i + 1];
      }
      var rest := if |parts| == 1 then "" else " " + ShellJoin(parts[1..]);
      assert ShellJoin(parts) == ShellQuote(parts[0]) + rest;
      ScanQuoted(parts[0], rest, None);
      assert "" + parts[0] == parts[0];
      if |parts| == 1 {
        assert Words(parts) == [Word(parts[0])];
      } else {
        assert rest[1..] == ShellJoin(parts[1..]);
      }
    }
  }

  lemma {:induction false} WordsInjective(a: seq<string>, b: seq<string>)
    requires Words(a) == Words(b)
    ensures a == b
  {
    if a != [] && b != [] {
      assert Words(a)[0] == Words(b)[0] && Words(a)[1..] == Words(b)[1..];
      WordsInjective(a[1..], b[1..]);
    }
  }

  /** Joining never confuses two argument vectors. */
  lemma JoinInjective(a: seq<string>, b: seq<string>)
    requires AllNulFree(a) && AllNulFree(b) && ShellJoin(a) == ShellJoin(b)
    ensures a == b
  {
    TokenizeJoin(a);
    TokenizeJoin(b);
    WordsInjective(a, b);
  }

  // ------------------------------------------------------- plain words

  predicate IsPlain(c: char) {
    c != NUL && !IsBlank(c) && !IsOperator(c) && !IsExpansion(c) && !IsLeading(c) && c != '\'' && c != '\"' && c != '\\'
  }

  predicate PlainText(text: string) {
    text != "" && forall i :: 0 <= i < |text| ==> IsPlain(text[i])
  }

  /** Unquoted text without special characters, up to a blank, is one word. */
  lemma {:induction false} ScanPlain(text: string, rest: string, word: Option<string>)
    requires PlainText(text)
    ensures Scan(text + " " + rest, word) == Prepend([Word((if word.Some? then word.value else "") + text)], Scan(rest, None))
    decreases |text|
  {
    var all := text + " " + rest;
    var next := Extend(word, text[0]);
    assert all[1..] == text[1..] + " " + rest;
    if |text| == 1 {
      assert text == [text[0]] && "" + text == text;
      assert next == Some((if word.Some? then word.value else "") + text);
      assert all[1..] == " " + rest && all[1..][1..] == rest;
      assert Scan(all[1..], next) == Prepend(Flush(next), Scan(rest, None));
    } else {
      ScanPlain(text[1..], rest, next);
      assert (if word.Some? then word.value else "") + text == next.value + text[1..];
    }
  }

  lemma ScanOperator(op: char, rest: string)
    requires IsOperator(op)
    ensures Scan([op] + " " + rest, None) == Prepend([Op(op)], Scan(rest, None))
  {
    var all := [op] + " " + rest;
    assert all[1..] == " " + rest && all[1..][1..] == rest;
    assert Scan(all[1..], None) == Prepend([], Scan(rest, None));
    assert forall tokens: seq<Token> :: [] + tokens == tokens;
    assert Flush(None) + [Op(op)] == [Op(op)];
  }

  // ---------------------------------------------------------- wrapping

  /** The two ways the program hands a command to a shell: a literal prefix, or a joined argv. */
  datatype Style = Prefixed | Joined(bash: bool)

  function Wrap(style: Style, command: string): string {
    match style
    case Prefixed => "/bin/sh -lc " + ShellQuote(command)
    case Joined(bash) => ShellJoin([if bash then "/bin/bash" else "/bin/sh", "-lc", command])
  }

  function WrapAll(styles: seq<Style>, command: string): string {
    if styles == [] then command else Wrap(styles[0], WrapAll(styles[1..], command))
  }

  /** What a shell started by `text` is given to run. */
  function Unwrap(text: string): Option<string> {
    var tokens := Tokenize(text);
    if tokens.Some? && |tokens.value| == 3 && tokens.value[1] == Word("-lc") && tokens.value[2].Word?
       && (tokens.value[0] == Word("/bin/sh") || tokens.value[0] == Word("/bin/bash"))
    then Some(tokens.value[2].text) else None
  }

  function UnwrapAll(n: nat, text: string): Option<string> {
    if n == 0 then Some(text)
    else
      var inner := Unwrap(text);
      if inner.None? then None else UnwrapAll(n - 1, inner.value)
  }

  lemma QuotedIsWord(command: string)
    ensures Tokenize(ShellQuote(command)) == if NulFree(command) then Some([Word(command)]) else None
  {
    ScanQuoted(command, "", None);
    assert ShellQuote(command) + "" == ShellQuote(command) && "" + command == command;
  }

  lemma PrefixedTokens(command: string)
    requires NulFree(command)
    ensures Tokenize(Wrap(Prefixed, command)) == Some([Word("/bin/sh"), Word("-lc"), Word(command)])
  {
    assert PlainText("-lc") && PlainText("/bin/sh");
    hide Scan, ShellQuote, PlainText, NulFree;
    var tail := "-lc" + " " + ShellQuote(command);
    QuotedIsWord(command);
    ScanPlain("-lc", ShellQuote(command), None);
    ScanPlain("/bin/sh", tail, None);
    assert "" + "-lc" == "-lc" && "" + "/bin/sh" == "/bin/sh";
    PrefixedText(ShellQuote(command));
    assert [Word("/bin/sh")] + ([Word("-lc")] + [Word(command)]) == [Word("/bin/sh"), Word("-lc"), Word(command)];
  }

  lemma PrefixedText(quoted: string)
    ensures "/bin/sh -lc " + quoted == "/bin/sh" + " " + ("-lc" + " " + quoted)
  {
  }

  lemma JoinedTokens(bash: bool, command: string)
    requires NulFree(command)
    ensures Tokenize(Wrap(Joined(bash), command))
            == Some([Word(if bash then "/bin/bash" else "/bin/sh"), Word("-lc"), Word(command)])
  {
    var parts := [if bash then "/bin/bash" else "/bin/sh", "-lc", command];
    hide Scan, ShellJoin;
    TokenizeJoin(parts);
    assert NulFree(parts[0]) && NulFree(parts[1]);
    assert parts[1..] == [parts[1], parts[2]] && parts[1..][1..] == [parts[2]];
    assert Words(parts[1..][1..]) == [Word(parts[2])];
    assert Words(parts[1..]) == [Word(parts[1]), Word(parts[2])];
    assert Words(parts) == [Word(parts[0]), Word(parts[1]), Word(parts[2])];
  }

  lemma UnwrapWrap(style: Style, command: string)
    requires NulFree(command)
    ensures Unwrap(Wrap(style, command)) == Some(command)
  {
    hide Tokenize, Wrap;
    match style
    case Prefixed => PrefixedTokens(command);
    case Joined(bash) => JoinedTokens(bash, command);
  }

  /** Quoting adds no NUL, so a wrapped command can be wrapped again. */
  lemma {:induction false} EscapeNulFree(value: string)
    requires NulFree(value)
    ensures NulFree(EscapeQuotes(value))
  {
    if value != "" {
      assert value[0] in value && forall c :: c in value[1..] ==> c in value;
      EscapeNulFree(value[1..]);
    }
  }

  lemma QuoteNulFree(value: string)
    requires NulFree(value)
    ensures NulFree(ShellQuote(value))
  {
    EscapeNulFree(value);
    hide EscapeQuotes;
  }

  lemma JoinThree(a: string, b: string, c: string)
    ensures ShellJoin([a, b, c]) == ShellQuote(a) + " " + (ShellQuote(b) + " " + ShellQuote(c))
  {
    hide ShellQuote;
    assert [a, b, c][1..] == [b, c] && [b, c][1..] == [c];
    assert ShellJoin([c]) == ShellQuote(c);
    assert ShellJoin([b, c]) == ShellQuote(b) + " " + ShellQuote(c);
  }

  lemma WrapNulFree(style: Style, command: string)
    requires NulFree(command)
    ensures NulFree(Wrap(style, command))
  {
    hide ShellQuote, ShellJoin;
    QuoteNulFree(command);
    if style.Joined? {
      var shell := if style.bash then "/bin/bash" else "/bin/sh";
      QuoteNulFree(shell);
      QuoteNulFree("-lc");
      JoinThree(shell, "-lc", command);
    }
  }

  lemma {:induction false} WrapAllNulFree(styles: seq<Style>, command: string)
    requires NulFree(command)
    ensures NulFree(WrapAll(styles, command))
  {
    if styles != [] {
      WrapAllNulFree(styles[1..], command);
      WrapNulFree(styles[0], WrapAll(styles[1..], command));
    }
  }

  /** However deep and in whatever mixture a command is wrapped, as many shells unwrap exactly that command. */
  lemma {:induction false} UnwrapWrapAll(styles: seq<Style>, command: string)
    requires NulFree(command)
    ensures UnwrapAll(|styles|, WrapAll(styles, command)) == Some(command)
  {
    if styles != [] {
      WrapAllNulFree(styles[1..], command);
      UnwrapWrap(styles[0], WrapAll(styles[1..], command));
      UnwrapWrapAll(styles[1..], command);
    }
  }
}
