/**
 * Registration of tool servers in the Claude CLI's own configuration through
 * its `mcp add`, `mcp remove` and `mcp list` sub-commands. The process runs
 * are oracle inputs: whether the process started, threw, or what it exited
 * with and printed.
 */
module McpManager {
  import opened Wrappers
  import opened Text
  import opened Models

  /** How a `RunClaudeCommandAsync` run ended: `Process.Start` gave null, something threw, or it exited. */
  datatype RunOutcome = NotStarted | Threw | Exited(exitCode: int)

  /** How the `mcp list` run ended; its exit code is never consulted, only what it printed. */
  datatype ListOutcome = ListNotStarted | ListThrew | ListPrinted(stdout: string)

  /** A program path and its argument vector (passed as a list, never through a shell). */
  datatype Command = Command(path: string, args: seq<string>)

  /** `RunClaudeCommandAsync`: success exactly when the process started and exited with 0. */
  predicate Succeeded(run: RunOutcome) {
    run == Exited(0)
  }

  /** The fixed head of every `mcp add` vector. */
  function AddPrefix(t: McpTransportType): seq<string> {
    ["mcp", "add", "--scope", "user", "--transport", if t == Stdio then "stdio" else "http"]
  }

  /** One `--env KEY=VALUE` pair per environment entry, in order. */
  function EnvArgs(env: seq<(string, string)>): (r: seq<string>)
    ensures |r| == 2 * |env|
    decreases |env|
  {
    if env == [] then [] else ["--env", env[0].0 + "=" + env[0].1] + EnvArgs(env[1..])
  }

  /** What follows the name: `--`, the command if any and the args (stdio), or the url if any (http). */
  function AddTail(s: McpServerConfig): seq<string> {
    match s.transport
    case Stdio =>
      ["--"] + (if s.command.Some? && s.command.value != [] then [s.command.value] else []) + s.args
    case Http => if s.url.Some? && s.url.value != [] then [s.url.value] else []
  }

  /** The argument vector `AddServerAsync` assembles. */
  function AddArgv(s: McpServerConfig): seq<string> {
    AddPrefix(s.transport)
    + (if s.transport == Stdio && |s.env| > 0 then EnvArgs(s.env) else [])
    + [s.name]
    + AddTail(s)
  }

  /** Where the server name sits in `AddArgv(s)`. */
  function NamePosition(s: McpServerConfig): nat {
    6 + (if s.transport == Stdio then 2 * |s.env| else 0)
  }

  /** `AddServerAsync`'s vector, built step by step as the source does. */
  method BuildAddArgs(s: McpServerConfig) returns (args: seq<string>)
    ensures args == AddArgv(s)
  {
    args := ["mcp", "add"];
    args := args + ["--scope", "user"];
    args := args + ["--transport", if s.transport == Stdio then "stdio" else "http"];
    assert args == AddPrefix(s.transport);
    if s.transport == Stdio && |s.env| > 0 {
      var k := 0;
      while k < |s.env|
        invariant 0 <= k <= |s.env|
        invariant args == AddPrefix(s.transport) + EnvArgs(s.env[..k])
      {
        EnvArgsAppend(s.env[..k], s.env[k]);
        assert s.env[..k + 1] == s.env[..k] + [s.env[k]];
        args := args + ["--env", s.env[k].0 + "=" + s.env[k].1];
        k := k + 1;
      }
      assert s.env[..k] == s.env;
    }
    var tail := BuildAddTail(s);
    args := args + [s.name] + tail;
  }

  /** The words `AddServerAsync` appends after the name. */
  method BuildAddTail(s: McpServerConfig) returns (tail: seq<string>)
    ensures tail == AddTail(s)
  {
    tail := [];
    if s.transport == Stdio {
      tail := tail + ["--"];
      if s.command.Some? && s.command.value != [] {
        tail := tail + [s.command.value];
      }
      tail := tail + s.args;
    } else if s.transport == Http {
      if s.url.Some? && s.url.value != [] {
        tail := tail + [s.url.value];
      }
    }
  }

  /** Pair `k` of the `--env` block is `--env` followed by `KEY=VALUE` of entry `k`. */
  lemma {:induction false} EnvArgsAt(env: seq<(string, string)>, k: nat)
    requires k < |env|
    ensures EnvArgs(env)[2 * k] == "--env" && EnvArgs(env)[2 * k + 1] == env[k].0 + "=" + env[k].1
    decreases |env|
  {
    if k > 0 {
      EnvArgsAt(env[1..], k - 1);
    }
  }

  lemma {:induction false} EnvArgsAppend(env: seq<(string, string)>, e: (string, string))
    ensures EnvArgs(env + [e]) == EnvArgs(env) + ["--env", e.0 + "=" + e.1]
    decreases |env|
  {
    if env == [] {
      assert env + [e] == [e];
    } else {
      assert (env + [e])[1..] == env[1..] + [e];
      EnvArgsAppend(env[1..], e);
    }
  }

  /**
   * The shape of the `mcp add` vector: the fixed six-word head, one
   * `--env KEY=VALUE` pair per stdio environment entry (none for http), the
   * name, then the transport-specific tail.
   */
  lemma AddArgvShape(s: McpServerConfig)
    ensures var argv, p := AddArgv(s), NamePosition(s);
      && |argv| == p + 1 + |AddTail(s)|
      && argv[..6] == AddPrefix(s.transport)
      && argv[p] == s.name
      && argv[p + 1..] == AddTail(s)
      && (s.transport == Stdio ==>
            forall k :: 0 <= k < |s.env| ==>
              argv[6 + 2 * k] == "--env" && argv[6 + 2 * k + 1] == s.env[k].0 + "=" + s.env[k].1)
  {
    var argv, p := AddArgv(s), NamePosition(s);
    var envPart := if s.transport == Stdio && |s.env| > 0 then EnvArgs(s.env) else [];
    assert |envPart| == p - 6;
    assert argv == AddPrefix(s.transport) + envPart + [s.name] + AddTail(s);
    assert argv[p + 1..] == AddTail(s);
    if s.transport == Stdio {
      forall k | 0 <= k < |s.env|
        ensures argv[6 + 2 * k] == "--env" && argv[6 + 2 * k + 1] == s.env[k].0 + "=" + s.env[k].1
      {
        EnvArgsAt(s.env, k);
        assert argv[6 + 2 * k] == envPart[2 * k];
        assert argv[6 + 2 * k + 1] == envPart[2 * k + 1];
      }
    }
  }

  /** The stdio tail: `--` first, the command only when non-empty, then every arg in order. */
  lemma StdioTail(s: McpServerConfig)
    requires s.transport == Stdio
    ensures var t := AddTail(s); var c := if s.command.Some? && s.command.value != [] then 1 else 0;
      |t| == 1 + c + |s.args| && t[0] == "--" && t[1 + c..] == s.args
      && (c == 1 ==> t[1] == s.command.value)
  {
  }

  /** `AddServerAsync`: no command at all without a usable CLI path. */
  function AddServerCommand(cliPath: Option<string>, s: McpServerConfig): (r: Option<Command>)
    ensures r.None? <==> !HasText(cliPath)
    ensures r.Some? ==> r.value.path == cliPath.value && r.value.args == AddArgv(s)
  {
    if HasText(cliPath) then Some(Command(cliPath.value, AddArgv(s))) else None
  }

  /** `RemoveServerAsync`. */
  function RemoveServerCommand(cliPath: Option<string>, name: string): (r: Option<Command>)
    ensures r.None? <==> !HasText(cliPath)
    ensures r.Some? ==> (|r.value.args| == 5 && r.value.args[4] == name
                         && r.value.args[..4] == ["mcp", "remove", "--scope", "user"])
  {
    if HasText(cliPath) then Some(Command(cliPath.value, ["mcp", "remove", "--scope", "user", name])) else None
  }

  /** What `AddServerAsync`/`RemoveServerAsync` return: false without a path, else the run's success. */
  function CommandResult(cmd: Option<Command>, run: RunOutcome): (r: bool)
    ensures r <==> cmd.Some? && run == Exited(0)
  {
    cmd.Some? && Succeeded(run)
  }

  /** The lines `Split('\n', RemoveEmptyEntries)` yields. */
  function NonEmptyLines(output: string): (r: seq<string>)
  {
    Filter(Split(output, '\n'))
  }

  function Filter(parts: seq<string>): (r: seq<string>)
    ensures forall k :: 0 <= k < |r| ==> r[k] != [] && r[k] in parts
    decreases |parts|
  {
    if parts == [] then []
    else (if parts[0] == [] then [] else [parts[0]]) + Filter(parts[1..])
  }

  /** The server name one line of `mcp list` output contributes, if any. */
  function NameOfLine(line: string): (r: Option<string>)
    ensures r.Some? ==> r.value != [] && ' ' !in r.value
  {
    var trimmed := Trim(line);
    if trimmed != [] && !StartsWith(trimmed, "No MCP") && Before(trimmed, ' ') != [] then
      Some(Before(trimmed, ' '))
    else None
  }

  /** The results of `f` on each line, concatenated in line order. */
  function ConcatMap(lines: seq<string>, f: string -> seq<string>): seq<string>
    decreases |lines|
  {
    if lines == [] then []
    else ConcatMap(lines[..|lines| - 1], f) + f(lines[|lines| - 1])
  }

  /** `ConcatMap` of a line followed by more lines: that line's result first. */
  lemma {:induction false} ConcatMapCons(line: string, lines: seq<string>, f: string -> seq<string>)
    ensures ConcatMap([line] + lines, f) == f(line) + ConcatMap(lines, f)
    decreases |lines|
  {
    var all := [line] + lines;
    if lines == [] {
      assert all[..0] == [];
    } else {
      var init, last := lines[..|lines| - 1], lines[|lines| - 1];
      assert ConcatMap(all, f) == ConcatMap([line] + init, f) + f(last) by {
        assert all[..|all| - 1] == [line] + init;
        assert all[|all| - 1] == last;
      }
      ConcatMapCons(line, init, f);
      assert ConcatMap(lines, f) == ConcatMap(init, f) + f(last);
      assert (f(line) + ConcatMap(init, f)) + f(last) == f(line) + (ConcatMap(init, f) + f(last));
    }
  }

  /** The names one line contributes: none or one. */
  function NameList(line: string): seq<string> {
    match NameOfLine(line) case Some(n) => [n] case None => []
  }

  /** The names of a sequence of lines, in line order. */
  function NamesOfLines(lines: seq<string>): seq<string> {
    ConcatMap(lines, NameList)
  }

  /** A server name as the parser returns it: non-empty, without spaces. */
  predicate IsWord(n: string) {
    n != [] && ' ' !in n
  }

  predicate AllWords(names: seq<string>) {
    forall k :: 0 <= k < |names| ==> IsWord(names[k])
  }

  /** Every name taken from the lines is a non-empty word without spaces, at most one per line. */
  lemma {:induction false} NamesOfLinesAreWords(lines: seq<string>)
    ensures AllWords(NamesOfLines(lines))
    ensures |NamesOfLines(lines)| <= |lines|
    decreases |lines|
  {
    if lines != [] {
      var init := lines[..|lines| - 1];
      NamesOfLinesAreWords(init);
      var a, b := NamesOfLines(init), NameList(lines[|lines| - 1]);
      assert AllWords(b);
      assert NamesOfLines(lines) == a + b;
      forall k | 0 <= k < |a + b| ensures IsWord((a + b)[k]) {
        if k < |a| { assert (a + b)[k] == a[k]; } else { assert (a + b)[k] == b[k - |a|]; }
      }
    }
  }

  /** The names `ListServersAsync` extracts from the output of `mcp list`. */
  function ListedNames(output: string): seq<string> {
    NamesOfLines(NonEmptyLines(output))
  }

  /** The parsing loop of `ListServersAsync`. */
  method ParseServerList(output: string) returns (servers: seq<string>)
    ensures servers == ListedNames(output)
  {
    var lines := NonEmptyLines(output);
    servers := [];
    var k := 0;
    while k < |lines|
      invariant 0 <= k <= |lines|
      invariant servers == NamesOfLines(lines[..k])
    {
      var added := ParseLine(lines[k]);
      NamesOfNextLine(lines, k);
      servers := servers + added;
      k := k + 1;
    }
    assert lines[..k] == lines;
  }

  /** The names of the first `k + 1` lines: those of the first `k`, then line `k`'s. */
  lemma NamesOfNextLine(lines: seq<string>, k: nat)
    requires k < |lines|
    ensures NamesOfLines(lines[..k + 1]) == NamesOfLines(lines[..k]) + NameList(lines[k])
  {
    assert lines[..k + 1][..k] == lines[..k];
  }

  /** The body of the parsing loop: trim the line, skip the notice, take the first word. */
  method ParseLine(line: string) returns (added: seq<string>)
    ensures added == NameList(line)
  {
    added := [];
    var trimmed := Trim(line);
    if trimmed != [] && !StartsWith(trimmed, "No MCP") {
      var name := Before(trimmed, ' ');
      if name != [] {
        added := [name];
      }
    }
  }

  /** `ListServersAsync`: empty without a path or when the run fails, else the parsed names. */
  function ListServers(cliPath: Option<string>, run: ListOutcome): (r: seq<string>)
    ensures !HasText(cliPath) || !run.ListPrinted? ==> r == []
    ensures AllWords(r)
  {
    if HasText(cliPath) && run.ListPrinted? then
      NamesOfLinesAreWords(NonEmptyLines(run.stdout));
      ListedNames(run.stdout)
    else []
  }

  /** `ServerExistsAsync`: case-insensitive membership in the listed names. */
  function ContainsIgnoreCase(names: seq<string>, name: string): (r: bool)
    ensures r <==> exists k :: 0 <= k < |names| && EqualsIgnoreCase(names[k], name)
    decreases |names|
  {
    names != [] && (EqualsIgnoreCase(names[0], name) || ContainsIgnoreCase(names[1..], name))
  }

  function ServerExists(cliPath: Option<string>, name: string, run: ListOutcome): (r: bool)
    ensures r ==> HasText(cliPath) && run.ListPrinted?
  {
    ContainsIgnoreCase(ListServers(cliPath, run), name)
  }

  // ----- the listing parser against a rendering of its input -----

  /** A listing line as the CLI prints it: the name, a space, a description. */
  function RenderLine(name: string, description: string): string {
    name + " " + description
  }

  /** A whole listing, one line per entry, each ended by a newline. */
  function RenderListing(entries: seq<(string, string)>): string
    decreases |entries|
  {
    if entries == [] then [] else RenderLine(entries[0].0, entries[0].1) + "\n" + RenderListing(entries[1..])
  }

  /** The names of the entries, in order. */
  function EntryNames(entries: seq<(string, string)>): (r: seq<string>)
    ensures |r| == |entries| && forall k :: 0 <= k < |r| ==> r[k] == entries[k].0
    decreases |entries|
  {
    if entries == [] then [] else [entries[0].0] + EntryNames(entries[1..])
  }

  /** A name the listing can carry: non-empty, without white space, and not the word "No". */
  predicate ListableName(name: string) {
    name != [] && NoWhiteSpace(name) && name != "No"
  }

  /** Trimming a rendered line keeps the whole name at its front, followed by a space if anything. */
  lemma TrimRenderedLine(name: string, description: string)
    requires name != [] && NoWhiteSpace(name)
    ensures var t := Trim(RenderLine(name, description));
      |t| >= |name| && t[..|name|] == name && (|t| > |name| ==> t[|name|] == ' ')
  {
    TrimKeepsCore(name, " " + description);
    assert RenderLine(name, description) == name + (" " + description);
  }

  /** What comes before the first space of a trimmed rendered line is the name. */
  lemma BeforeOfTrimmedLine(name: string, t: string)
    requires NoWhiteSpace(name)
    requires |t| >= |name| && t[..|name|] == name && (|t| > |name| ==> t[|name|] == ' ')
    ensures Before(t, ' ') == name
  {
    assert ' ' !in name by {
      assert IsWhiteSpace(' ');
    }
    if |t| > |name| {
      assert t == name + [' '] + t[|name| + 1..];
      BeforeOfConcat(name, ' ', t[|name| + 1..]);
    } else {
      assert t == name;
      BeforeNoSep(name, ' ');
    }
  }

  /** A trimmed rendered line of a name other than "No" never reads as the "No MCP" notice. */
  lemma NotNoticeLine(name: string, t: string)
    requires ListableName(name)
    requires |t| >= |name| && t[..|name|] == name && (|t| > |name| ==> t[|name|] == ' ')
    ensures !StartsWith(t, "No MCP")
  {
    if |name| >= 3 {
      assert t[2] == name[2] && !IsWhiteSpace(name[2]);
    } else if |name| == 2 {
      assert t[..2] == name;
    } else if |t| > 1 {
      assert t[1] == ' ';
    }
  }

  /** One listing line yields exactly its entry's name. */
  lemma NameOfRenderedLine(name: string, description: string)
    requires ListableName(name)
    ensures NameOfLine(RenderLine(name, description)) == Some(name)
  {
    var t := Trim(RenderLine(name, description));
    TrimRenderedLine(name, description);
    BeforeOfTrimmedLine(name, t);
    NotNoticeLine(name, t);
  }

  /**
   * Parsing a rendered listing gives back exactly the names, in order: the
   * parser is the left inverse of the CLI's `name description` lines.
   */
  lemma {:induction false} ListingRoundTrip(entries: seq<(string, string)>)
    requires forall k :: 0 <= k < |entries| ==> ListableName(entries[k].0) && '\n' !in entries[k].1
    ensures ListedNames(RenderListing(entries)) == EntryNames(entries)
    decreases |entries|
  {
    if entries == [] {
      assert Split([], '\n') == [[]];
    } else {
      var line := RenderLine(entries[0].0, entries[0].1);
      var rest := RenderListing(entries[1..]);
      ListingRoundTrip(entries[1..]);
      assert '\n' !in line by {
        assert '\n' !in entries[0].0 by { assert IsWhiteSpace('\n'); }
      }
      SplitConcat(line, rest);
      var pieces := Split(rest, '\n');
      assert RenderListing(entries) == line + "\n" + rest;
      assert ([line] + pieces)[1..] == pieces;
      assert NonEmptyLines(RenderListing(entries)) == [line] + NonEmptyLines(rest);
      NameOfRenderedLine(entries[0].0, entries[0].1);
      ConcatMapCons(line, NonEmptyLines(rest), NameList);
      assert ListedNames(RenderListing(entries)) == [entries[0].0] + ListedNames(rest);
    }
  }

  /** Splitting `line + "\n" + rest` on newlines: the line, then the pieces of `rest`. */
  lemma {:induction false} SplitConcat(line: string, rest: string)
    requires '\n' !in line
    ensures Split(line + "\n" + rest, '\n') == [line] + Split(rest, '\n')
    decreases |line|
  {
    if line == [] {
      assert line + "\n" + rest == ['\n'] + rest;
      assert (['\n'] + rest)[1..] == rest;
    } else {
      var s := line + "\n" + rest;
      assert s[1..] == line[1..] + "\n" + rest;
      SplitConcat(line[1..], rest);
      assert [line[0]] + line[1..] == line;
    }
  }
}
