/**
 File reads and writes on a node or in an LXC container. The client builds one command line; the model
 runs that line the way a POSIX shell does (tokenize, split into a pipeline, run each command) against
 a host that has a file system of its own and one for each container.
 */
module FileTransport {
  import opened Common
  import opened Utf8
  import Base64
  import opened Shell
  import Text

  type Files = map<string, seq<byte>>

  /** `scripts` records what `bash` was given to execute on its standard input. */
  datatype Host = Host(files: Files, containers: map<string, Files>, scripts: seq<seq<byte>>)

  /** Where a command runs: on the node itself or inside a container, named by its id. */
  datatype Place = Node | Container(id: string)

  datatype Ran = Ran(host: Host, stdout: seq<byte>, code: nat)

  predicate HasPlace(host: Host, place: Place) {
    place.Container? ==> place.id in host.containers
  }

  function FilesAt(host: Host, place: Place): Files
    requires HasPlace(host, place)
  {
    if place.Node? then host.files else host.containers[place.id]
  }

  function Store(host: Host, place: Place, path: string, data: seq<byte>): Host
    requires HasPlace(host, place)
  {
    if place.Node? then host.(files := host.files[path := data])
    else host.(containers := host.containers[place.id := host.containers[place.id][path := data]])
  }

  // ------------------------------------------------------------- the shell

  datatype Command = Command(argv: seq<string>, output: Option<string>)

  /** Words and redirections between `|` operators; any other operator is outside this model. */
  function Pipeline(tokens: seq<Token>, argv: seq<string>, output: Option<string>): Option<seq<Command>> {
    if tokens == [] then
      if argv == [] then None else Some([Command(argv, output)])
    else if tokens[0].Word? then Pipeline(tokens[1..], argv + [tokens[0].text], output)
    else if tokens[0].op == '>' && |tokens| > 1 && tokens[1].Word? && output.None? then
      Pipeline(tokens[2..], argv, Some(tokens[1].text))
    else if tokens[0].op == '|' && argv != [] then
      var rest := Pipeline(tokens[1..], [], None);
      if rest.None? then None else Some([Command(argv, output)] + rest.value)
    else None
  }

  function RunBase64(host: Host, place: Place, argv: seq<string>, stdin: seq<byte>): Option<Ran>
    requires HasPlace(host, place) && argv != []
  {
    if argv[1..] == ["-d"] then
      var data := Base64.DecodeStrict(Decode(stdin));
      Some(if data.Some? then Ran(host, data.value, 0) else Ran(host, [], 1))
    else if |argv| == 4 && argv[1] == "-w0" && argv[2] == "--" then
      if argv[3] == "-" then Some(Ran(host, Encode(Base64.Encode(stdin)), 0))
      else if argv[3] in FilesAt(host, place) then Some(Ran(host, Encode(Base64.Encode(FilesAt(host, place)[argv[3]])), 0))
      else Some(Ran(host, [], 1))
    else None
  }

  /** One command. `None` is a command this model does not know; nested shells use up `depth`. */
  function RunCommand(host: Host, place: Place, argv: seq<string>, stdin: seq<byte>, depth: nat): Option<Ran>
    requires HasPlace(host, place) && argv != []
    decreases depth, 3, 0
  {
    if argv[0] == "printf" then
      if |argv| == 3 && argv[1] == "%s" then Some(Ran(host, Encode(argv[2]), 0)) else None
    else if argv[0] == "base64" then RunBase64(host, place, argv, stdin)
    else if argv == ["bash"] then Some(Ran(host.(scripts := host.scripts + [stdin]), [], 0))
    else if depth == 0 then None
    else if |argv| == 3 && (argv[0] == "/bin/sh" || argv[0] == "/bin/bash") && argv[1] == "-lc" then
      RunLine(host, place, argv[2], stdin, depth - 1)
    else if |argv| > 4 && argv[0] == "pct" && argv[1] == "exec" && argv[3] == "--" && place == Node then
      if argv[2] in host.containers then RunCommand(host, Container(argv[2]), argv[4..], stdin, depth - 1)
      else Some(Ran(host, [], 1))
    else None
  }

  /** The shell opens the redirection first, so a failed command still leaves its output there. */
  function RunRedirected(host: Host, place: Place, command: Command, stdin: seq<byte>, depth: nat): Option<Ran>
    requires HasPlace(host, place)
    decreases depth, 4, 0
  {
    if command.argv == [] then None
    else
      var ran := RunCommand(host, place, command.argv, stdin, depth);
      if ran.None? || command.output.None? then ran
      else if command.output.value == "" || !HasPlace(ran.value.host, place) then Some(Ran(host, [], 1))
      else Some(Ran(Store(ran.value.host, place, command.output.value, ran.value.stdout), [], ran.value.code))
  }

  function RunPipeline(host: Host, place: Place, commands: seq<Command>, stdin: seq<byte>, depth: nat): Option<Ran>
    requires HasPlace(host, place) && commands != []
    decreases depth, 5, |commands|
  {
    var first := RunRedirected(host, place, commands[0], stdin, depth);
    if first.None? || |commands| == 1 then first
    else if !HasPlace(first.value.host, place) then None
    else RunPipeline(first.value.host, place, commands[1..], first.value.stdout, depth)
  }

  /** `sh -c line`. */
  function RunLine(host: Host, place: Place, line: string, stdin: seq<byte>, depth: nat): Option<Ran>
    requires HasPlace(host, place)
    decreases depth, 6, 0
  {
    var tokens := Tokenize(line);
    if tokens.None? then None
    else
      var commands := Pipeline(tokens.value, [], None);
      if commands.None? || commands.value == [] then None
      else RunPipeline(host, place, commands.value, stdin, depth)
  }

  // ------------------------------------------------------------ the client

  /** The command that runs on the target itself. */
  function WriteScript(path: string, content: seq<byte>): string {
    "printf %s " + ShellQuote(Base64.Encode(content)) + " | base64 -d > " + ShellQuote(path)
  }

  function ReadScript(path: string): string {
    "base64 -w0 -- " + ShellQuote(path)
  }

  function PctPrefix(id: string): string {
    "pct exec " + id + " -- "
  }

  /** The line sent over SSH: a write always starts a shell, a read only to enter a container. */
  function WriteLine(place: Place, path: string, content: seq<byte>): string {
    (if place.Node? then "" else PctPrefix(place.id)) + "/bin/sh -lc " + ShellQuote(WriteScript(path, content))
  }

  function ReadLine(place: Place, path: string): string {
    if place.Node? then ReadScript(path)
    else PctPrefix(place.id) + "/bin/sh -lc " + ShellQuote(ReadScript(path))
  }

  /** The line that runs a generated script. */
  function NodeScriptLine(script: string): string {
    "/bin/sh -lc " + ShellQuote("printf %s " + ShellQuote(Base64.Encode(Encode(script))) + " | base64 -d | bash")
  }

  /** What the client makes of a finished read. */
  function ReadResult(ran: Ran): Option<seq<byte>> {
    if ran.code != 0 then None else Some(Base64.Decode(Text.Trim(Decode(ran.stdout))))
  }

  // ---------------------------------------------------------------- proofs

  predicate IsDecimal(id: string) {
    id != "" && forall i :: 0 <= i < |id| ==> '0' <= id[i] <= '9'
  }

  predicate ValidTarget(host: Host, place: Place) {
    place.Container? ==> place.id in host.containers && IsDecimal(place.id)
  }

  /** The unquoted words of the command lines, and the command names a shell has to tell apart. */
  lemma Literals()
    ensures PlainText("printf") && PlainText("%s") && PlainText("base64") && PlainText("-d") && PlainText("bash")
    ensures PlainText("-w0") && PlainText("--") && PlainText("pct") && PlainText("exec")
    ensures "base64" != "printf" && "bash" != "printf" && "bash" != "base64" && "pct" != "printf" && "pct" != "base64"
    ensures "/bin/sh" != "printf" && "/bin/sh" != "base64"
  {
    assert "base64"[0] != "printf"[0];
  }

  /** A quoted word followed by a blank. */
  lemma ScanQuotedBlank(value: string, rest: string)
    requires NulFree(value)
    ensures Scan(ShellQuote(value) + " " + rest, None) == Prepend([Word(value)], Scan(rest, None))
  {
    ScanQuoted(value, " " + rest, None);
    hide ShellQuote;
    assert ShellQuote(value) + " " + rest == ShellQuote(value) + (" " + rest);
    assert (" " + rest)[1..] == rest && "" + value == value;
  }

  /** Building a tokenization from the end of the line backwards: a word, a quoted word, an operator. */
  lemma WordThen(text: string, rest: string, tokens: seq<Token>)
    requires PlainText(text) && Scan(rest, None) == Some(tokens)
    ensures Scan(text + " " + rest, None) == Some([Word(text)] + tokens)
  {
    ScanPlain(text, rest, None);
    assert "" + text == text;
  }

  lemma OperatorThen(op: char, rest: string, tokens: seq<Token>)
    requires IsOperator(op) && Scan(rest, None) == Some(tokens)
    ensures Scan([op] + " " + rest, None) == Some([Op(op)] + tokens)
  {
    ScanOperator(op, rest);
  }

  lemma PrependTwice(a: seq<Token>, b: seq<Token>, rest: Option<seq<Token>>)
    ensures Prepend(a, Prepend(b, rest)) == Prepend(a + b, rest)
  {
    if rest.Some? {
      assert a + (b + rest.value) == a + b + rest.value;
    }
  }

  lemma EncodedNulFree(content: seq<byte>)
    ensures NulFree(Base64.Encode(content))
  {
    Base64.EncodeAlphabet(content);
  }

  /** `printf %s <text> | ` in front of any further script. */
  lemma PrintfTokens(content: seq<byte>, rest: string)
    ensures Scan("printf %s " + ShellQuote(Base64.Encode(content)) + " | " + rest, None)
            == Prepend([Word("printf"), Word("%s"), Word(Base64.Encode(content)), Op('|')], Scan(rest, None))
  {
    Literals();
    hide Scan, ShellQuote, Prepend, PlainText;
    var encoded := Base64.Encode(content);
    EncodedNulFree(content);
    var piped := "|" + " " + rest;
    var quoted := ShellQuote(encoded) + " " + piped;
    ScanOperator('|', rest);
    assert ['|'] + " " + rest == piped;
    ScanQuotedBlank(encoded, piped);
    ScanPlain("%s", quoted, None);
    ScanPlain("printf", "%s" + " " + quoted, None);
    assert "" + "%s" == "%s" && "" + "printf" == "printf";
    PrintfText(ShellQuote(encoded), rest);
    FourPrepended(Word("printf"), Word("%s"), Word(encoded), Op('|'), Scan(rest, None));
  }

  lemma PrintfText(quoted: string, rest: string)
    ensures "printf %s " + quoted + " | " + rest == "printf" + " " + ("%s" + " " + (quoted + " " + ("|" + " " + rest)))
  {
  }

  lemma FourPrepended(a: Token, b: Token, c: Token, d: Token, tail: Option<seq<Token>>)
    ensures Prepend([a], Prepend([b], Prepend([c], Prepend([d], tail)))) == Prepend([a, b, c, d], tail)
  {
    if tail.Some? {
      assert [a] + ([b] + ([c] + ([d] + tail.value))) == [a, b, c, d] + tail.value;
    }
  }

  /** `base64 -d > <path>`. */
  lemma DecodeIntoTokens(path: string)
    requires NulFree(path)
    ensures Tokenize("base64 -d > " + ShellQuote(path))
            == Some([Word("base64"), Word("-d"), Op('>'), Word(path)])
  {
    Literals();
    QuotedIsWord(path);
    hide Scan, ShellQuote;
    var target := ">" + " " + ShellQuote(path);
    ScanOperator('>', ShellQuote(path));
    assert ['>'] + " " + ShellQuote(path) == target;
    ScanPlain("-d", target, None);
    ScanPlain("base64", "-d" + " " + target, None);
    assert "" + "-d" == "-d" && "" + "base64" == "base64";
    assert "base64 -d > " + ShellQuote(path) == "base64" + " " + ("-d" + " " + target);
    assert [Word("base64")] + ([Word("-d")] + ([Op('>')] + [Word(path)]))
           == [Word("base64"), Word("-d"), Op('>'), Word(path)];
  }

  function WriteTokens(path: string, content: seq<byte>): seq<Token> {
    [Word("printf"), Word("%s"), Word(Base64.Encode(content)), Op('|'), Word("base64"), Word("-d"), Op('>'), Word(path)]
  }

  lemma WriteScriptTokens(path: string, content: seq<byte>)
    requires NulFree(path)
    ensures Tokenize(WriteScript(path, content)) == Some(WriteTokens(path, content))
  {
    hide Scan, ShellQuote;
    var rest := "base64 -d > " + ShellQuote(path);
    PrintfTokens(content, rest);
    DecodeIntoTokens(path);
    assert WriteScript(path, content) == "printf %s " + ShellQuote(Base64.Encode(content)) + " | " + rest;
    assert [Word("printf"), Word("%s"), Word(Base64.Encode(content)), Op('|')]
           + [Word("base64"), Word("-d"), Op('>'), Word(path)] == WriteTokens(path, content);
  }

  lemma {:induction false} PipelineWords(words: seq<string>, rest: seq<Token>, argv: seq<string>)
    ensures Pipeline(Words(words) + rest, argv, None) == Pipeline(rest, argv + words, None)
  {
    if words == [] {
      assert Words(words) + rest == rest && argv + words == argv;
    } else {
      assert (Words(words) + rest)[1..] == Words(words[1..]) + rest;
      PipelineWords(words[1..], rest, argv + [words[0]]);
      assert argv + [words[0]] + words[1..] == argv + words;
    }
  }

  lemma WordsOf1(a: string)
    ensures Words([a]) == [Word(a)]
  {
    assert [a][1..] == [];
  }

  lemma WordsOf2(a: string, b: string)
    ensures Words([a, b]) == [Word(a), Word(b)]
  {
    assert [a, b][1..] == [b];
    WordsOf1(b);
  }

  lemma WordsOf3(a: string, b: string, c: string)
    ensures Words([a, b, c]) == [Word(a), Word(b), Word(c)]
  {
    assert [a, b, c][1..] == [b, c];
    WordsOf2(b, c);
  }

  lemma WritePipeline(path: string, content: seq<byte>)
    ensures Pipeline(WriteTokens(path, content), [], None)
            == Some([Command(["printf", "%s", Base64.Encode(content)], None), Command(["base64", "-d"], Some(path))])
  {
    var encoded := Base64.Encode(content);
    var target := [Op('>'), Word(path)];
    var second := Words(["base64", "-d"]) + target;
    WordsOf2("base64", "-d");
    WordsOf3("printf", "%s", encoded);
    assert WriteTokens(path, content) == Words(["printf", "%s", encoded]) + ([Op('|')] + second);
    PipelineWords(["printf", "%s", encoded], [Op('|')] + second, []);
    PipelineWords(["base64", "-d"], target, []);
    assert [] + ["base64", "-d"] == ["base64", "-d"] && [] + ["printf", "%s", encoded] == ["printf", "%s", encoded];
    assert target[2..] == [];
    assert Pipeline(target, ["base64", "-d"], None) == Some([Command(["base64", "-d"], Some(path))]);
    PipelineBar(["printf", "%s", encoded], second);
    hide Pipeline;
    var commands := [Command(["printf", "%s", encoded], None)] + [Command(["base64", "-d"], Some(path))];
    assert commands == [Command(["printf", "%s", encoded], None), Command(["base64", "-d"], Some(path))];
  }

  /** A command line up to a `|` is one command of the pipeline. */
  lemma PipelineBar(argv: seq<string>, rest: seq<Token>)
    requires argv != []
    ensures var commands := Pipeline(rest, [], None);
            Pipeline([Op('|')] + rest, argv, None)
            == if commands.None? then None else Some([Command(argv, None)] + commands.value)
  {
    assert ([Op('|')] + rest)[1..] == rest;
  }

  /** The inner script, run where the file lives, leaves exactly the bytes at exactly the path. */
  lemma WriteScriptRuns(host: Host, place: Place, path: string, content: seq<byte>, stdin: seq<byte>, depth: nat)
    requires HasPlace(host, place) && NulFree(path) && path != ""
    ensures RunLine(host, place, WriteScript(path, content), stdin, depth)
            == Some(Ran(Store(host, place, path, content), [], 0))
  {
    Literals();
    WriteScriptTokens(path, content);
    WritePipeline(path, content);
    var encoded := Base64.Encode(content);
    DecodeEncode(encoded);
    Base64.StrictDecodeEncode(content);
    var emit := Command(["printf", "%s", encoded], None);
    var decode := Command(["base64", "-d"], Some(path));
    hide Tokenize, WriteScript, Pipeline, Decode, Encode, Base64.Encode, Base64.DecodeStrict;
    assert RunCommand(host, place, emit.argv, stdin, depth) == Some(Ran(host, Encode(encoded), 0));
    assert decode.argv[1..] == ["-d"];
    assert RunCommand(host, place, decode.argv, Encode(encoded), depth) == Some(Ran(host, content, 0));
    hide RunCommand;
    assert [emit, decode][1..] == [decode];
    assert RunRedirected(host, place, emit, stdin, depth) == Some(Ran(host, Encode(encoded), 0));
    assert RunRedirected(host, place, decode, Encode(encoded), depth) == Some(Ran(Store(host, place, path, content), [], 0));
    assert RunPipeline(host, place, [decode], Encode(encoded), depth) == Some(Ran(Store(host, place, path, content), [], 0));
    assert RunPipeline(host, place, [emit, decode], stdin, depth) == RunPipeline(host, place, [decode], Encode(encoded), depth);
  }

  /** The tokens of any shell started on a quoted script, on the node or behind `pct exec`. */
  lemma StartShellTokens(place: Place, script: string)
    requires NulFree(script) && (place.Container? ==> IsDecimal(place.id))
    ensures Tokenize((if place.Node? then "" else PctPrefix(place.id)) + "/bin/sh -lc " + ShellQuote(script))
            == Some(Words((if place.Node? then [] else ["pct", "exec", place.id, "--"]) + ["/bin/sh", "-lc", script]))
  {
    hide Scan, ShellQuote, PlainText, Words, Tokenize;
    PrefixedTokens(script);
    WordsOf3("/bin/sh", "-lc", script);
    if place.Node? {
      assert "" + "/bin/sh -lc " + ShellQuote(script) == "/bin/sh -lc " + ShellQuote(script);
      assert [] + ["/bin/sh", "-lc", script] == ["/bin/sh", "-lc", script];
    } else {
      PctTokens(place.id, script);
    }
  }

  lemma PctTokens(id: string, script: string)
    requires NulFree(script) && IsDecimal(id)
    ensures Tokenize(PctPrefix(id) + "/bin/sh -lc " + ShellQuote(script))
            == Some(Words(["pct", "exec", id, "--"] + ["/bin/sh", "-lc", script]))
  {
    assert PlainText(id);
    Literals();
    hide Scan, ShellQuote, PlainText, Words, PctPrefix, Wrap;
    PrefixedTokens(script);
    assert Wrap(Prefixed, script) == "/bin/sh -lc " + ShellQuote(script) by { WrapPrefixed(script); }
    WordsOf3("/bin/sh", "-lc", script);
    WordsOfPct(id, script);
    var shell := "/bin/sh -lc " + ShellQuote(script);
    var tokens := Words(["/bin/sh", "-lc", script]);
    WordThen("--", shell, tokens);
    WordThen(id, "--" + " " + shell, [Word("--")] + tokens);
    var tail := id + " " + ("--" + " " + shell);
    var tailTokens := [Word(id)] + ([Word("--")] + tokens);
    WordThen("exec", tail, tailTokens);
    WordThen("pct", "exec" + " " + tail, [Word("exec")] + tailTokens);
    PctText(id, ShellQuote(script));
  }

  lemma WrapPrefixed(script: string)
    ensures Wrap(Prefixed, script) == "/bin/sh -lc " + ShellQuote(script)
  {
    hide ShellQuote;
  }

  lemma PctText(id: string, quoted: string)
    ensures PctPrefix(id) + "/bin/sh -lc " + quoted
            == "pct" + " " + ("exec" + " " + (id + " " + ("--" + " " + ("/bin/sh -lc " + quoted))))
  {
    var shell := "/bin/sh -lc " + quoted;
    assert PctPrefix(id) == "pct exec " + id + " -- ";
    assert id + " " + ("--" + " " + shell) == id + " -- " + shell;
    assert "pct" + " " + ("exec" + " " + (id + " -- " + shell)) == "pct exec " + (id + " -- " + shell);
    assert PctPrefix(id) + "/bin/sh -lc " + quoted == "pct exec " + (id + " -- " + shell);
  }

  lemma WordsOfPct(id: string, script: string)
    ensures Words(["pct", "exec", id, "--"] + ["/bin/sh", "-lc", script])
            == [Word("pct")] + ([Word("exec")] + ([Word(id)] + ([Word("--")] + Words(["/bin/sh", "-lc", script]))))
  {
    var shell := ["/bin/sh", "-lc", script];
    var all := ["pct", "exec", id, "--"] + shell;
    assert all[1..] == ["exec", id, "--"] + shell;
    assert all[1..][1..] == [id, "--"] + shell;
    assert all[1..][1..][1..] == ["--"] + shell;
    assert all[1..][1..][1..][1..] == shell;
    assert Words(["--"] + shell) == [Word("--")] + Words(shell);
    assert Words([id, "--"] + shell) == [Word(id)] + Words(["--"] + shell);
    assert Words(["exec", id, "--"] + shell) == [Word("exec")] + Words([id, "--"] + shell);
  }

  /** Starting a shell on a quoted script from outside is running that script at the target. */
  lemma StartShellRuns(host: Host, place: Place, script: string, stdin: seq<byte>, depth: nat)
    requires ValidTarget(host, place) && NulFree(script) && 2 <= depth
    ensures RunLine(host, Node, (if place.Node? then "" else PctPrefix(place.id)) + "/bin/sh -lc " + ShellQuote(script), stdin, depth)
            == RunLine(host, place, script, stdin, if place.Node? then depth - 1 else depth - 2)
  {
    Literals();
    StartShellTokens(place, script);
    var line := (if place.Node? then "" else PctPrefix(place.id)) + "/bin/sh -lc " + ShellQuote(script);
    var shell := ["/bin/sh", "-lc", script];
    var argv := (if place.Node? then [] else ["pct", "exec", place.id, "--"]) + shell;
    hide Tokenize, ShellQuote, PctPrefix;
    PipelineWords(argv, [], []);
    assert Words(argv) + [] == Words(argv) && [] + argv == argv;
    var command := Command(argv, None);
    assert Pipeline(Words(argv), [], None) == Some([command]);
    assert RunLine(host, Node, line, stdin, depth) == RunPipeline(host, Node, [command], stdin, depth);
    hide *;
    RunSingle(host, Node, argv, stdin, depth);
    StartedShell(host, place, script, stdin, depth);
  }

  lemma RunSingle(host: Host, place: Place, argv: seq<string>, stdin: seq<byte>, depth: nat)
    requires HasPlace(host, place) && argv != []
    ensures RunPipeline(host, place, [Command(argv, None)], stdin, depth) == RunCommand(host, place, argv, stdin, depth)
  {
    hide RunCommand;
    assert RunRedirected(host, place, Command(argv, None), stdin, depth) == RunCommand(host, place, argv, stdin, depth);
  }

  lemma StartedShell(host: Host, place: Place, script: string, stdin: seq<byte>, depth: nat)
    requires ValidTarget(host, place) && 2 <= depth
    ensures RunCommand(host, Node, (if place.Node? then [] else ["pct", "exec", place.id, "--"]) + ["/bin/sh", "-lc", script], stdin, depth)
            == RunLine(host, place, script, stdin, if place.Node? then depth - 1 else depth - 2)
  {
    hide RunLine;
    Literals();
    var shell := ["/bin/sh", "-lc", script];
    assert RunCommand(host, place, shell, stdin, if place.Node? then depth else depth - 1)
           == RunLine(host, place, script, stdin, if place.Node? then depth - 1 else depth - 2);
    var argv := (if place.Node? then [] else ["pct", "exec", place.id, "--"]) + shell;
    if place.Node? {
      assert argv == shell;
    } else {
      assert argv[4..] == shell;
      assert argv[0] == "pct" && argv != ["bash"];
    }
  }

  lemma JoinedNulFree(a: string, b: string)
    ensures NulFree(a + b) <==> NulFree(a) && NulFree(b)
  {
    assert forall c :: c in a + b <==> c in a || c in b;
  }

  lemma WriteScriptNulFree(path: string, content: seq<byte>)
    requires NulFree(path)
    ensures NulFree(WriteScript(path, content)) && NulFree(ReadScript(path))
  {
    EncodedNulFree(content);
    hide ShellQuote;
    QuoteNulFree(path);
    QuoteNulFree(Base64.Encode(content));
    var quoted := ShellQuote(Base64.Encode(content));
    assert NulFree("printf %s ") && NulFree(" | base64 -d > ") && NulFree("base64 -w0 -- ");
    hide NulFree;
    JoinedNulFree("printf %s ", quoted);
    JoinedNulFree("printf %s " + quoted, " | base64 -d > ");
    JoinedNulFree("printf %s " + quoted + " | base64 -d > ", ShellQuote(path));
    JoinedNulFree("base64 -w0 -- ", ShellQuote(path));
  }

  /** A file write puts exactly the given bytes at exactly the given path and touches nothing else. */
  lemma WriteLineRuns(host: Host, place: Place, path: string, content: seq<byte>, stdin: seq<byte>, depth: nat)
    requires ValidTarget(host, place) && NulFree(path) && path != "" && 2 <= depth
    ensures RunLine(host, Node, WriteLine(place, path, content), stdin, depth)
            == Some(Ran(Store(host, place, path, content), [], 0))
  {
    hide RunLine, WriteScript;
    WriteScriptNulFree(path, content);
    StartShellRuns(host, place, WriteScript(path, content), stdin, depth);
    WriteScriptRuns(host, place, path, content, stdin, if place.Node? then depth - 1 else depth - 2);
  }

  /** What the read script prints; the operand `-` names standard input, not a file. */
  function ReadBack(host: Host, place: Place, path: string, stdin: seq<byte>): Option<seq<byte>>
    requires HasPlace(host, place)
  {
    if path == "-" then Some(stdin)
    else if path in FilesAt(host, place) then Some(FilesAt(host, place)[path])
    else None
  }

  lemma ReadScriptTokens(path: string)
    requires NulFree(path)
    ensures Tokenize(ReadScript(path)) == Some(Words(["base64", "-w0", "--", path]))
  {
    Literals();
    QuotedIsWord(path);
    hide Scan, ShellQuote;
    ScanPlain("--", ShellQuote(path), None);
    ScanPlain("-w0", "--" + " " + ShellQuote(path), None);
    ScanPlain("base64", "-w0" + " " + ("--" + " " + ShellQuote(path)), None);
    assert "" + "--" == "--" && "" + "-w0" == "-w0" && "" + "base64" == "base64";
    assert ReadScript(path) == "base64" + " " + ("-w0" + " " + ("--" + " " + ShellQuote(path)));
    assert ["base64", "-w0", "--", path][1..] == ["-w0", "--", path];
    WordsOf3("-w0", "--", path);
    assert [Word("base64")] + ([Word("-w0")] + ([Word("--")] + [Word(path)])) == Words(["base64", "-w0", "--", path]);
  }

  lemma ReadScriptRuns(host: Host, place: Place, path: string, stdin: seq<byte>, depth: nat)
    requires HasPlace(host, place) && NulFree(path)
    ensures var back := ReadBack(host, place, path, stdin);
            RunLine(host, place, ReadScript(path), stdin, depth)
            == Some(if back.Some? then Ran(host, Encode(Base64.Encode(back.value)), 0) else Ran(host, [], 1))
  {
    Literals();
    ReadScriptTokens(path);
    var argv := ["base64", "-w0", "--", path];
    hide Tokenize, ReadScript, Encode, Base64.Encode;
    PipelineWords(argv, [], []);
    assert Words(argv) + [] == Words(argv) && [] + argv == argv;
    assert Pipeline(Words(argv), [], None) == Some([Command(argv, None)]);
    hide Pipeline, RunPipeline, RunRedirected, RunCommand, RunBase64;
    RunSingle(host, place, argv, stdin, depth);
    ReadCommandRuns(host, place, path, stdin, depth);
  }

  lemma ReadCommandRuns(host: Host, place: Place, path: string, stdin: seq<byte>, depth: nat)
    requires HasPlace(host, place)
    ensures var back := ReadBack(host, place, path, stdin);
            RunCommand(host, place, ["base64", "-w0", "--", path], stdin, depth)
            == Some(if back.Some? then Ran(host, Encode(Base64.Encode(back.value)), 0) else Ran(host, [], 1))
  {
    hide Encode, Base64.Encode;
    var argv := ["base64", "-w0", "--", path];
    assert "base64" != "printf" && |argv[1..]| == 3;
    assert RunCommand(host, place, argv, stdin, depth) == RunBase64(host, place, argv, stdin);
  }

  /** The client decodes what the script printed: the base64 text survives UTF-8 and `trim`. */
  lemma ReadResultOf(host: Host, content: seq<byte>)
    ensures ReadResult(Ran(host, Encode(Base64.Encode(content)), 0)) == Some(content)
  {
    var text := Base64.Encode(content);
    DecodeEncode(text);
    Base64.EncodeAlphabet(content);
    Text.TrimFixed(text);
    Base64.DecodeEncode(content);
    hide Base64.Encode, Base64.Decode, Encode, Decode, Text.Trim;
    if text != "" {
      assert text[0] in text && text[|text| - 1] in text;
    }
  }

  /** A read as the client sees it: the line is run on the node and its output decoded. */
  function ClientRead(host: Host, place: Place, path: string, stdin: seq<byte>, depth: nat): Option<seq<byte>> {
    var ran := RunLine(host, Node, ReadLine(place, path), stdin, depth);
    if ran.None? then None else ReadResult(ran.value)
  }

  /** A read returns the file, fails when there is none, and takes the path `-` for standard input. */
  lemma ReadLineRuns(host: Host, place: Place, path: string, stdin: seq<byte>, depth: nat)
    requires ValidTarget(host, place) && NulFree(path) && 2 <= depth
    ensures ClientRead(host, place, path, stdin, depth) == ReadBack(host, place, path, stdin)
  {
    hide RunLine, ReadScript;
    WriteScriptNulFree(path, []);
    if place.Node? {
      ReadScriptRuns(host, place, path, stdin, depth);
    } else {
      StartShellRuns(host, place, ReadScript(path), stdin, depth);
      ReadScriptRuns(host, place, path, stdin, depth - 2);
    }
    var back := ReadBack(host, place, path, stdin);
    if back.Some? {
      ReadResultOf(host, back.value);
    }
  }

  /**
   Write, then read: on the node or in a container, for every byte string and every non-empty NUL-free
   path, the client gets back exactly the bytes it wrote whatever is on the reader's standard input, if
   and only if the path is not the operand `-`.
   */
  lemma WriteThenRead(host: Host, place: Place, path: string, content: seq<byte>, stdin: seq<byte>, depth: nat)
    requires ValidTarget(host, place) && NulFree(path) && path != "" && 2 <= depth
    ensures var written := RunLine(host, Node, WriteLine(place, path, content), stdin, depth);
            && written.Some? && written.value.code == 0
            && ((forall input :: ClientRead(written.value.host, place, path, input, depth) == Some(content))
                <==> path != "-")
  {
    WriteLineRuns(host, place, path, content, stdin, depth);
    var after := Store(host, place, path, content);
    forall input ensures ClientRead(after, place, path, input, depth) == ReadBack(after, place, path, input) {
      ReadLineRuns(after, place, path, input, depth);
    }
    hide RunLine, ReadLine, ReadResult, ClientRead;
    if path == "-" {
      var other := content + [0];
      assert ClientRead(after, place, path, other, depth) == Some(other) && |other| != |content|;
    } else {
      assert FilesAt(after, place)[path] == content;
    }
  }

  /** Storing one file leaves every other file as it was. */
  lemma StoreFrame(host: Host, place: Place, path: string, content: seq<byte>, other: Place, otherPath: string)
    requires HasPlace(host, place) && HasPlace(host, other) && (other != place || otherPath != path)
    ensures var after := Store(host, place, path, content);
            HasPlace(after, other)
            && (otherPath in FilesAt(after, other) <==> otherPath in FilesAt(host, other))
            && (otherPath in FilesAt(host, other) ==> FilesAt(after, other)[otherPath] == FilesAt(host, other)[otherPath])
  {
  }

  /**
   Running a write command succeeds and leaves every other file, on the node and in every container, as it
   was: a client that reads one gets what it would have got before.
   */
  lemma OtherFilesUntouched(host: Host, place: Place, path: string, content: seq<byte>, stdin: seq<byte>, depth: nat,
                            other: Place, otherPath: string, input: seq<byte>)
    requires ValidTarget(host, place) && NulFree(path) && path != "" && 2 <= depth
    requires ValidTarget(host, other) && NulFree(otherPath) && (other != place || otherPath != path)
    ensures var written := RunLine(host, Node, WriteLine(place, path, content), stdin, depth);
            && written.Some? && written.value.code == 0 && written.value.host.scripts == host.scripts
            && ValidTarget(written.value.host, other)
            && (otherPath in FilesAt(written.value.host, other) <==> otherPath in FilesAt(host, other))
            && (otherPath in FilesAt(host, other) ==>
                  FilesAt(written.value.host, other)[otherPath] == FilesAt(host, other)[otherPath])
            && ClientRead(written.value.host, other, otherPath, input, depth) == ClientRead(host, other, otherPath, input, depth)
  {
    hide RunLine, WriteLine, ClientRead;
    WriteLineRuns(host, place, path, content, stdin, depth);
    StoreFrame(host, place, path, content, other, otherPath);
    ReadLineRuns(host, other, otherPath, input, depth);
    ReadLineRuns(Store(host, place, path, content), other, otherPath, input, depth);
  }

  /** `bash` on the node is given exactly the UTF-8 bytes of the generated script, quotes and all. */
  lemma NodeScriptIsDelivered(host: Host, script: string, stdin: seq<byte>, depth: nat)
    requires 2 <= depth
    ensures RunLine(host, Node, NodeScriptLine(script), stdin, depth)
            == Some(Ran(host.(scripts := host.scripts + [Encode(script)]), [], 0))
  {
    var encoded := Base64.Encode(Encode(script));
    var inner := "printf %s " + ShellQuote(encoded) + " | base64 -d | bash";
    hide RunLine, Encode, Base64.Encode;
    EncodedNulFree(Encode(script));
    EscapeNulFree(encoded);
    assert NulFree(inner);
    StartShellRuns(host, Node, inner, stdin, depth);
    DeliverTokens(Encode(script));
    DeliverRuns(host, Encode(script), inner, stdin, depth - 1);
    hide EscapeQuotes, Tokenize;
    assert "" + "/bin/sh -lc " + ShellQuote(inner) == NodeScriptLine(script);
  }

  function DeliverWords(data: seq<byte>): seq<Token> {
    [Word("printf"), Word("%s"), Word(Base64.Encode(data)), Op('|'), Word("base64"), Word("-d"), Op('|'), Word("bash")]
  }

  lemma DeliverTokens(data: seq<byte>)
    ensures Tokenize("printf %s " + ShellQuote(Base64.Encode(data)) + " | base64 -d | bash") == Some(DeliverWords(data))
  {
    Literals();
    hide Scan, ShellQuote, PlainText;
    var rest := "base64 -d | bash";
    PrintfTokens(data, rest);
    DecodeBashTokens();
    assert "printf %s " + ShellQuote(Base64.Encode(data)) + " | base64 -d | bash"
           == "printf %s " + ShellQuote(Base64.Encode(data)) + " | " + rest;
    assert [Word("printf"), Word("%s"), Word(Base64.Encode(data)), Op('|')]
           + [Word("base64"), Word("-d"), Op('|'), Word("bash")] == DeliverWords(data);
  }

  lemma DecodeBashTokens()
    ensures Scan("base64 -d | bash", None) == Some([Word("base64"), Word("-d"), Op('|'), Word("bash")])
  {
    Literals();
    LastWord("bash");
    hide Scan, PlainText;
    OperatorThen('|', "bash", [Word("bash")]);
    var tail, tokens := ['|'] + " " + "bash", [Op('|')] + [Word("bash")];
    WordThen("-d", tail, tokens);
    WordThen("base64", "-d" + " " + tail, [Word("-d")] + tokens);
    assert "base64 -d | bash" == "base64" + " " + ("-d" + " " + tail);
    assert [Word("base64")] + ([Word("-d")] + tokens) == [Word("base64"), Word("-d"), Op('|'), Word("bash")];
  }

  /** Unquoted text without special characters, up to the end of the line, is one word. */
  lemma LastWord(text: string)
    requires PlainText(text)
    ensures Scan(text, None) == Some([Word(text)])
  {
    PlainToEnd(text, None);
    assert "" + text == text;
  }

  lemma {:induction false} PlainToEnd(text: string, word: Option<string>)
    requires PlainText(text)
    ensures Scan(text, word) == Some([Word((if word.Some? then word.value else "") + text)])
    decreases |text|
  {
    var next := Extend(word, text[0]);
    var start := if word.Some? then word.value else "";
    if |text| == 1 {
      assert text == [text[0]] && start + text == next.value;
    } else {
      PlainToEnd(text[1..], next);
      assert next.value + text[1..] == start + text;
    }
  }

  lemma DeliverRuns(host: Host, data: seq<byte>, script: string, stdin: seq<byte>, depth: nat)
    requires Tokenize(script) == Some(DeliverWords(data))
    ensures RunLine(host, Node, script, stdin, depth) == Some(Ran(host.(scripts := host.scripts + [data]), [], 0))
  {
    Literals();
    DeliverPipeline(data);
    var encoded := Base64.Encode(data);
    DecodeEncode(encoded);
    Base64.StrictDecodeEncode(data);
    var emit := Command(["printf", "%s", encoded], None);
    var decode := Command(["base64", "-d"], None);
    var run := Command(["bash"], None);
    hide Tokenize, Pipeline, DeliverWords, Decode, Encode, Base64.Encode, Base64.DecodeStrict;
    assert RunCommand(host, Node, emit.argv, stdin, depth) == Some(Ran(host, Encode(encoded), 0));
    assert decode.argv[1..] == ["-d"];
    assert RunCommand(host, Node, decode.argv, Encode(encoded), depth) == Some(Ran(host, data, 0));
    assert RunCommand(host, Node, run.argv, data, depth) == Some(Ran(host.(scripts := host.scripts + [data]), [], 0));
    hide RunCommand;
    assert RunRedirected(host, Node, emit, stdin, depth) == Some(Ran(host, Encode(encoded), 0));
    assert RunRedirected(host, Node, decode, Encode(encoded), depth) == Some(Ran(host, data, 0));
    assert RunRedirected(host, Node, run, data, depth) == Some(Ran(host.(scripts := host.scripts + [data]), [], 0));
    assert [emit, decode, run][1..] == [decode, run] && [decode, run][1..] == [run];
    assert RunPipeline(host, Node, [run], data, depth) == Some(Ran(host.(scripts := host.scripts + [data]), [], 0));
    assert RunPipeline(host, Node, [decode, run], Encode(encoded), depth) == RunPipeline(host, Node, [run], data, depth);
    assert RunPipeline(host, Node, [emit, decode, run], stdin, depth)
           == RunPipeline(host, Node, [decode, run], Encode(encoded), depth);
  }

  lemma DecodeBashPipeline()
    ensures Pipeline([Word("base64"), Word("-d"), Op('|'), Word("bash")], [], None)
            == Some([Command(["base64", "-d"], None), Command(["bash"], None)])
  {
    var last := Words(["bash"]) + [];
    WordsOf1("bash");
    WordsOf2("base64", "-d");
    PipelineWords(["bash"], [], []);
    PipelineWords(["base64", "-d"], [Op('|')] + last, []);
    assert [] + ["base64", "-d"] == ["base64", "-d"] && [] + ["bash"] == ["bash"];
    assert Pipeline([], ["bash"], None) == Some([Command(["bash"], None)]);
    PipelineBar(["base64", "-d"], last);
    hide Pipeline;
    assert Words(["base64", "-d"]) + ([Op('|')] + last) == [Word("base64"), Word("-d"), Op('|'), Word("bash")];
    assert [Command(["base64", "-d"], None)] + [Command(["bash"], None)]
           == [Command(["base64", "-d"], None), Command(["bash"], None)];
  }

  lemma DeliverPipeline(data: seq<byte>)
    ensures Pipeline(DeliverWords(data), [], None)
            == Some([Command(["printf", "%s", Base64.Encode(data)], None), Command(["base64", "-d"], None), Command(["bash"], None)])
  {
    hide Pipeline, Base64.Encode;
    var encoded := Base64.Encode(data);
    var rest := [Word("base64"), Word("-d"), Op('|'), Word("bash")];
    DecodeBashPipeline();
    WordsOf3("printf", "%s", encoded);
    PipelineWords(["printf", "%s", encoded], [Op('|')] + rest, []);
    PipelineBar(["printf", "%s", encoded], rest);
    assert [] + ["printf", "%s", encoded] == ["printf", "%s", encoded];
    assert Words(["printf", "%s", encoded]) + ([Op('|')] + rest) == DeliverWords(data);
    assert [Command(["printf", "%s", encoded], None)] + [Command(["base64", "-d"], None), Command(["bash"], None)]
           == [Command(["printf", "%s", encoded], None), Command(["base64", "-d"], None), Command(["bash"], None)];
  }
}
