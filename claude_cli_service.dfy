/**
 * Sending one chat request to the Claude CLI: the quoted command line, the
 * chunks the response stream yields, and the process/cancellation fields the
 * service keeps while a request runs. The process itself is an oracle: whether
 * it started, what it printed and with which code it exited, and after how many
 * yielded chunks (if any) cancellation was requested.
 */
module CliService {
  import opened Wrappers
  import opened Text
  import opened CommandLine

  // ----- the command line -----

  /** How `EscapeArgument` rewrites one character: `\` doubled, `"` preceded by `\`. */
  function EscapeChar(c: char): string {
    if c == '\\' then "\\\\" else if c == '"' then "\\\"" else [c]
  }

  /** The inner text of `EscapeArgument`, one character at a time. */
  function EscapeChars(s: string): string
    decreases |s|
  {
    if s == [] then [] else EscapeChar(s[0]) + EscapeChars(s[1..])
  }

  /** `EscapeArgument`: replace `\` by `\\`, then `"` by `\"`, and wrap in quotes. */
  function EscapeArgument(arg: string): string {
    "\"" + ReplaceChar(ReplaceChar(arg, '\\', "\\\\"), '"', "\\\"") + "\""
  }

  /** The two chained replacements are one left-to-right pass of `EscapeChar`. */
  lemma {:induction false} ChainedReplaceIsPerChar(s: string)
    ensures ReplaceChar(ReplaceChar(s, '\\', "\\\\"), '"', "\\\"") == EscapeChars(s)
    decreases |s|
  {
    if s != [] {
      var h := if s[0] == '\\' then "\\\\" else [s[0]];
      var rest := ReplaceChar(s[1..], '\\', "\\\\");
      assert ReplaceChar(s, '\\', "\\\\") == h + rest;
      ReplaceCharAppend(h, rest, '"', "\\\"");
      ChainedReplaceIsPerChar(s[1..]);
      assert ReplaceChar(h, '"', "\\\"") == EscapeChar(s[0]);
    }
  }

  /** The escaped argument is its inner text between two quotes. */
  lemma EscapeArgumentShape(arg: string)
    ensures EscapeArgument(arg) == "\"" + EscapeChars(arg) + "\""
  {
    ChainedReplaceIsPerChar(arg);
  }

  /** Each `\` and each `"` costs one extra character, plus the two enclosing quotes. */
  lemma {:induction false} EscapeCharsLength(s: string)
    ensures |EscapeChars(s)| == |s| + Count(s, '\\') + Count(s, '"')
    decreases |s|
  {
    if s != [] {
      EscapeCharsLength(s[1..]);
    }
  }

  lemma EscapeArgumentLength(arg: string)
    ensures |EscapeArgument(arg)| == |arg| + Count(arg, '\\') + Count(arg, '"') + 2
  {
    EscapeArgumentShape(arg);
    EscapeCharsLength(arg);
  }

  /** Reading `\x` as `x` and any other character as itself. */
  function Unescape(t: string): string
    decreases |t|
  {
    if t == [] then []
    else if t[0] == '\\' && |t| >= 2 then [t[1]] + Unescape(t[2..])
    else [t[0]] + Unescape(t[1..])
  }

  /** Unescaping the inner text gives back the argument. */
  lemma {:induction false} UnescapeEscape(s: string)
    ensures Unescape(EscapeChars(s)) == s
    decreases |s|
  {
    if s != [] {
      var e := EscapeChars(s);
      UnescapeEscape(s[1..]);
      if s[0] == '\\' || s[0] == '"' {
        assert e == ['\\', s[0]] + EscapeChars(s[1..]);
        assert e[2..] == EscapeChars(s[1..]);
      } else {
        assert e == [s[0]] + EscapeChars(s[1..]);
        assert e[1..] == EscapeChars(s[1..]);
      }
    }
  }

  /** Distinct arguments are escaped to distinct strings. */
  lemma EscapeArgumentInjective(a: string, b: string)
    requires EscapeArgument(a) == EscapeArgument(b)
    ensures a == b
  {
    EscapeArgumentShape(a);
    EscapeArgumentShape(b);
    var ea, eb := EscapeArgument(a), EscapeArgument(b);
    assert EscapeChars(a) == ea[1..|ea| - 1];
    assert EscapeChars(b) == eb[1..|eb| - 1];
    UnescapeEscape(a);
    UnescapeEscape(b);
  }

  /** Every `"` of the inner text is preceded by a `\`: no quote ends the argument early. */
  predicate QuotesEscaped(t: string) {
    forall i :: 0 <= i < |t| && t[i] == '"' ==> i > 0 && t[i - 1] == '\\'
  }

  lemma {:induction false} EscapeCharsQuotesEscaped(s: string)
    ensures QuotesEscaped(EscapeChars(s))
    decreases |s|
  {
    if s != [] {
      var h, r := EscapeChar(s[0]), EscapeChars(s[1..]);
      EscapeCharsQuotesEscaped(s[1..]);
      var e := h + r;
      forall i | 0 <= i < |e| && e[i] == '"' ensures i > 0 && e[i - 1] == '\\' {
        if i >= |h| {
          assert r[i - |h|] == '"';
          assert i - |h| > 0;
          assert e[i - 1] == r[i - |h| - 1];
        }
      }
    }
  }

  /**
   * The process splits its command line by the rule of `CommandLine.ParseArgs`,
   * under which a run of backslashes stands for itself unless a quote follows
   * it. `EscapeArgument` doubles every backslash, so a lone one reaches the CLI
   * doubled: the message `a\b` arrives as `a\\b`.
   */
  lemma EscapeArgumentDoublesLoneBackslash()
    ensures ParseArgs(EscapeArgument("a\\b")) == ["a\\\\b"]
    ensures ParseArgs(EscapeArgument("a\\b")) != ["a\\b"]
  {
    EscapedLoneBackslash();
    var t := "\"a\\\\b\"";
    ReadDoubledBackslash();
    assert t[1..] == "a\\\\b\"";
    assert ParseArgs(t) == ["a\\\\b"];
    assert "a\\\\b"[2] != "a\\b"[2];
  }

  lemma EscapedLoneBackslash()
    ensures EscapeArgument("a\\b") == "\"a\\\\b\""
  {
    assert EscapeChars("a\\b") == "a\\\\b" by {
      assert EscapeChars("b") == "b";
      assert EscapeChars("\\b") == "\\\\b";
    }
    EscapeArgumentShape("a\\b");
  }

  lemma ReadDoubledBackslash()
    ensures NextArgument("a\\\\b\"", true) == ("a\\\\b", [])
  {
    var close := NextArgument("\"", true);
    assert "\"" + [] == "\"";
    ClosingQuote([]);
    assert close == ([], []);
    assert "b\"" == ['b'] + "\"";
    PlainChar('b', "\"", true);
    var b := NextArgument("b\"", true);
    assert b == Prepend("b", close);
    assert "b" + [] == "b";
    assert b == ("b", []);
    var run := Backslashes(2) + "b\"";
    assert Backslashes(2) == "\\\\";
    LiteralRun(2, "b\"", true);
    assert NextArgument(run, true) == Prepend("\\\\", b);
    assert "\\\\" + "b" == "\\\\b";
    assert NextArgument(run, true) == ("\\\\b", []);
    PlainChar('a', run, true);
    assert "a\\\\b\"" == ['a'] + run;
    assert NextArgument("a\\\\b\"", true) == Prepend("a", ("\\\\b", []));
    assert "a" + "\\\\b" == "a\\\\b";
  }

  /** Without backslashes the text `EscapeArgument` builds is the correct quoting. */
  lemma {:induction false} EscapeCharsWithoutBackslash(s: string)
    requires '\\' !in s
    ensures EscapeChars(s) == EscapeForQuotes(s)
    decreases |s|
  {
    if s != [] {
      assert '\\' !in s[1..] by {
        forall i | 0 <= i < |s[1..]| ensures s[1..][i] != '\\' {
          assert s[1..][i] == s[i + 1];
        }
      }
      EscapeCharsWithoutBackslash(s[1..]);
      assert LeadingBackslashes(s) == 0;
      assert Backslashes(1) == "\\";
    }
  }

  /** On text without backslashes `EscapeArgument` is the correct quoting. */
  lemma EscapeIsQuoteWithoutBackslash(arg: string)
    requires '\\' !in arg
    ensures EscapeArgument(arg) == QuoteArgument(arg)
  {
    EscapeArgumentShape(arg);
    EscapeCharsWithoutBackslash(arg);
  }

  /** So an argument without backslashes reaches the CLI intact even as written. */
  lemma EscapeArgumentWithoutBackslash(arg: string)
    requires '\\' !in arg
    ensures ParseArgs(EscapeArgument(arg)) == [arg]
  {
    EscapeIsQuoteWithoutBackslash(arg);
    QuoteArgumentRoundTrip(arg, []);
    assert QuoteArgument(arg) + [] == EscapeArgument(arg);
  }

  /**
   * The arguments `BuildArguments` collects, before joining, with `quote`
   * applied to each free-text argument: `EscapeArgument` in the source,
   * `CommandLine.QuoteArgument` in the corrected form.
   */
  function ArgumentList(quote: string -> string, message: string, systemPrompt: Option<string>): (r: seq<string>)
    ensures |r| == if HasText(systemPrompt) then 4 else 2
    ensures r[0] == "--print" && r[|r| - 1] == quote(message)
    ensures HasText(systemPrompt) ==> r[1] == "--system-prompt" && r[2] == quote(systemPrompt.value)
  {
    ["--print"]
    + (if HasText(systemPrompt) then ["--system-prompt", quote(systemPrompt.value)] else [])
    + [quote(message)]
  }

  /** `BuildArguments` as written: each free-text argument through `EscapeArgument`, joined by single spaces. */
  function BuildArguments(message: string, systemPrompt: Option<string>): string {
    Join(ArgumentList(EscapeArgument, message, systemPrompt), " ")
  }

  /** The corrected command line: the same arguments quoted by `CommandLine.QuoteArgument`. */
  function BuildArgumentsCorrected(message: string, systemPrompt: Option<string>): string {
    Join(ArgumentList(QuoteArgument, message, systemPrompt), " ")
  }

  /** What the CLI is meant to receive: `--print`, the system prompt when there is one, and the message. */
  function IntendedArguments(message: string, systemPrompt: Option<string>): seq<string> {
    ["--print"] + (if HasText(systemPrompt) then ["--system-prompt", systemPrompt.value] else []) + [message]
  }

  /** The corrected command line splits back into exactly the intended arguments. */
  lemma BuildArgumentsRoundTrip(message: string, systemPrompt: Option<string>)
    ensures ParseArgs(BuildArgumentsCorrected(message, systemPrompt)) == IntendedArguments(message, systemPrompt)
  {
    var qm := QuoteArgument(message);
    var list := ArgumentList(QuoteArgument, message, systemPrompt);
    if HasText(systemPrompt) {
      var qs := QuoteArgument(systemPrompt.value);
      assert list == ["--print", "--system-prompt", qs, qm];
      JoinFour("--print", "--system-prompt", qs, qm);
      ParseWithPrompt(message, systemPrompt.value);
    } else {
      assert list == ["--print", qm];
      JoinTwo("--print", qm);
      ParseWithoutPrompt(message);
    }
  }

  /**
   * The command line as written is the corrected one, and so splits back into
   * the intended arguments, when neither the message nor the prompt holds a
   * backslash.
   */
  lemma BuildArgumentsWithoutBackslash(message: string, systemPrompt: Option<string>)
    requires '\\' !in message
    requires systemPrompt.Some? ==> '\\' !in systemPrompt.value
    ensures BuildArguments(message, systemPrompt) == BuildArgumentsCorrected(message, systemPrompt)
    ensures ParseArgs(BuildArguments(message, systemPrompt)) == IntendedArguments(message, systemPrompt)
  {
    EscapeIsQuoteWithoutBackslash(message);
    if HasText(systemPrompt) {
      EscapeIsQuoteWithoutBackslash(systemPrompt.value);
    }
    assert ArgumentList(EscapeArgument, message, systemPrompt) == ArgumentList(QuoteArgument, message, systemPrompt);
    BuildArgumentsRoundTrip(message, systemPrompt);
  }

  /** As written, the message `a\b` reaches the CLI as `a\\b`: the command line does not round-trip. */
  lemma BuildArgumentsDoublesLoneBackslash()
    ensures ParseArgs(BuildArguments("a\\b", None)) == ["--print", "a\\\\b"]
    ensures ParseArgs(BuildArguments("a\\b", None)) != IntendedArguments("a\\b", None)
  {
    ParseBuiltWithoutPrompt("a\\b");
    EscapeArgumentDoublesLoneBackslash();
    assert IntendedArguments("a\\b", None) == ["--print", "a\\b"];
    assert |"a\\\\b"| != |"a\\b"|;
  }

  /** Without a system prompt the line is `--print` and the escaped message. */
  lemma ParseBuiltWithoutPrompt(message: string)
    ensures ParseArgs(BuildArguments(message, None)) == ["--print"] + ParseArgs(EscapeArgument(message))
  {
    var e := EscapeArgument(message);
    assert ArgumentList(EscapeArgument, message, None) == ["--print", e];
    JoinTwo("--print", e);
    ParsePrintThen(e);
  }

  lemma ParsePrintThen(rest: string)
    ensures ParseArgs("--print" + (" " + rest)) == ["--print"] + ParseArgs(rest)
  {
    LeadingSpace(rest);
    assert PlainWord("--print");
    PlainWordRoundTrip("--print", " " + rest);
  }

  lemma JoinTwo(a: string, b: string)
    ensures Join([a, b], " ") == a + (" " + b)
  {
    assert [a, b][1..] == [b];
  }

  lemma JoinFour(a: string, b: string, c: string, d: string)
    ensures Join([a, b, c, d], " ") == a + (" " + (b + (" " + (c + (" " + d)))))
  {
    assert [a, b, c, d][1..] == [b, c, d];
    assert [b, c, d][1..] == [c, d];
    JoinTwo(c, d);
  }

  lemma ParseWithoutPrompt(message: string)
    ensures ParseArgs("--print" + (" " + QuoteArgument(message))) == ["--print", message]
  {
    var qm := QuoteArgument(message);
    QuoteArgumentRoundTrip(message, []);
    assert qm + [] == qm;
    LeadingSpace(qm);
    assert PlainWord("--print");
    PlainWordRoundTrip("--print", " " + qm);
  }

  lemma ParseWithPrompt(message: string, prompt: string)
    ensures var qm, qs := QuoteArgument(message), QuoteArgument(prompt);
      ParseArgs("--print" + (" " + ("--system-prompt" + (" " + (qs + (" " + qm))))))
        == ["--print", "--system-prompt", prompt, message]
  {
    var qm, qs := QuoteArgument(message), QuoteArgument(prompt);
    var last := " " + qm;
    assert ParseArgs(last) == [message] by {
      QuoteArgumentRoundTrip(message, []);
      assert qm + [] == qm;
      LeadingSpace(qm);
    }
    var afterFlag := " " + (qs + last);
    assert ParseArgs(afterFlag) == [prompt, message] by {
      QuoteArgumentRoundTrip(prompt, last);
      LeadingSpace(qs + last);
    }
    var afterPrint := " " + ("--system-prompt" + afterFlag);
    assert ParseArgs(afterPrint) == ["--system-prompt", prompt, message] by {
      assert PlainWord("--system-prompt");
      PlainWordRoundTrip("--system-prompt", afterFlag);
      LeadingSpace("--system-prompt" + afterFlag);
    }
    assert PlainWord("--print");
    PlainWordRoundTrip("--print", afterPrint);
  }

  // ----- the response stream -----

  /** What `Process.Start` did: returned null, threw, or started a process with this behaviour. */
  datatype StartResult =
    | StartReturnedNull
    | StartThrew
    | Started(stdout: string, exitCode: int, stderr: string)

  /** How `SendMessageAsync` ended for its consumer. */
  datatype SendOutcome =
    | NotInstalled   // thrown before anything happens
    | FailedToStart  // thrown inside the try: `Process.Start` gave null
    | StartError     // `Process.Start` itself threw
    | Cancelled      // the token was cancelled before the output was read to its end
    | Completed

  /** One string per character, as the one-character read buffer delivers them. */
  function Chunks(s: string): (r: seq<string>)
    ensures |r| == |s|
    ensures forall i :: 0 <= i < |r| ==> r[i] == [s[i]]
    decreases |s|
  {
    if s == [] then [] else [[s[0]]] + Chunks(s[1..])
  }

  /** Concatenation of a sequence of strings. */
  function Concat(parts: seq<string>): string
    decreases |parts|
  {
    if parts == [] then [] else parts[0] + Concat(parts[1..])
  }

  lemma {:induction false} ConcatChunks(s: string)
    ensures Concat(Chunks(s)) == s
    decreases |s|
  {
    if s != [] {
      ConcatChunks(s[1..]);
      assert Chunks(s)[1..] == Chunks(s[1..]);
    }
  }

  /** The error marker, present exactly when the exit code is non-zero and stderr is not blank. */
  function ErrorChunk(exitCode: int, stderr: string): (r: seq<string>)
    ensures r != [] <==> exitCode != 0 && !IsBlank(stderr)
    ensures r != [] ==> r == ["\n\n**Error:** " + stderr]
  {
    if exitCode != 0 && !IsBlank(stderr) then ["\n\n**Error:** " + stderr] else []
  }

  /**
   * When the request's token is cancelled, as the stream sees it: never; once
   * `n` characters of stdout have been yielded (a point past the end of stdout
   * is after the stream has ended, and changes nothing); or after stdout has
   * ended, while the service waits for the exit or reads stderr.
   */
  datatype Cancellation = Never | AfterChunks(n: nat) | WhileFinishing

  /** Cancellation observed while stdout still had to be read (or its end confirmed). */
  predicate CancelledDuringRead(stdout: string, cancel: Cancellation) {
    cancel.AfterChunks? && cancel.n <= |stdout|
  }

  /** Everything `SendMessageAsync` yields before it ends. */
  function Yielded(cliPath: Option<string>, start: StartResult, cancel: Cancellation): seq<string> {
    if !HasText(cliPath) then []
    else match start
      case Started(out, code, err) =>
        if CancelledDuringRead(out, cancel) then Chunks(out[..cancel.n])
        else if cancel.WhileFinishing? then Chunks(out)
        else Chunks(out) + ErrorChunk(code, err)
      case _ => []
  }

  /** How `SendMessageAsync` ends: a cancelled wait or stderr read throws, as a cancelled read does. */
  function Outcome(cliPath: Option<string>, start: StartResult, cancel: Cancellation): SendOutcome {
    if !HasText(cliPath) then NotInstalled
    else match start
      case StartReturnedNull => FailedToStart
      case StartThrew => StartError
      case Started(out, _, _) =>
        if CancelledDuringRead(out, cancel) || cancel.WhileFinishing? then Cancelled else Completed
  }

  /**
   * The framing of the stream: a prefix of stdout one character per chunk, in
   * order; then, only on a completed run, the error marker exactly when the exit
   * code is non-zero and stderr is not blank. Without a CLI path, or when the
   * process does not start, nothing is yielded. A cancellation after stdout has
   * ended still ends the stream as cancelled, with all of stdout and no marker.
   */
  lemma StreamFraming(cliPath: Option<string>, start: StartResult, cancel: Cancellation)
    ensures var y, o := Yielded(cliPath, start, cancel), Outcome(cliPath, start, cancel);
      && (o != Cancelled && o != Completed ==> y == [])
      && (o == NotInstalled <==> !HasText(cliPath))
      && (o == Completed ==>
            && (|y| == |start.stdout| + 1 <==> start.exitCode != 0 && !IsBlank(start.stderr))
            && Concat(y[..|start.stdout|]) == start.stdout
            && (|y| > |start.stdout| ==> y[|start.stdout|] == "\n\n**Error:** " + start.stderr))
      && (o == Cancelled ==>
            && |y| <= |start.stdout|
            && Concat(y) == start.stdout[..|y|])
      && (o == Cancelled && cancel.WhileFinishing? ==> Concat(y) == start.stdout)
      && (forall i :: 0 <= i < |y| && (o == Cancelled || i < |start.stdout|) ==> |y[i]| == 1)
  {
    var y, o := Yielded(cliPath, start, cancel), Outcome(cliPath, start, cancel);
    if o == Completed {
      var out := start.stdout;
      assert y[..|out|] == Chunks(out);
      ConcatChunks(out);
    } else if o == Cancelled {
      if CancelledDuringRead(start.stdout, cancel) {
        ConcatChunks(start.stdout[..cancel.n]);
      } else {
        ConcatChunks(start.stdout);
        assert start.stdout[..|y|] == start.stdout;
      }
    }
  }

  // ----- the service's fields -----

  /** The running process as the service sees it. */
  datatype ProcessHandle = ProcessHandle(exited: bool, killed: bool)

  /** The linked cancellation source of the running request. */
  datatype TokenSource = TokenSource(cancelled: bool)

  class ClaudeCliService {
    var currentProcess: Option<ProcessHandle>
    var cts: Option<TokenSource>
    /** The arguments `ProcessingStateChanged` has been raised with, oldest first. */
    var stateEvents: seq<bool>

    constructor ()
      ensures currentProcess == None && cts == None && stateEvents == []
    {
      currentProcess := None;
      cts := None;
      stateEvents := [];
    }

    /** `IsProcessing`: a process exists and has not exited. */
    predicate IsProcessing()
      reads this
    {
      currentProcess.Some? && !currentProcess.value.exited
    }

    /** `CleanupProcess`: both fields cleared, then `ProcessingStateChanged(false)`. */
    method CleanupProcess()
      modifies this
      ensures currentProcess == None && cts == None && !IsProcessing()
      ensures stateEvents == old(stateEvents) + [false]
    {
      currentProcess := None;
      cts := None;
      stateEvents := stateEvents + [false];
    }

    /**
     * `CancelCurrentRequest`: signal the token if there is one; kill the
     * process only if it exists and has not exited. A failing kill is
     * swallowed and leaves the process as it was.
     */
    method CancelCurrentRequest(killFails: bool)
      modifies this
      ensures cts == (if old(cts).Some? then Some(TokenSource(true)) else None)
      ensures currentProcess ==
        (if old(IsProcessing()) && !killFails then Some(old(currentProcess).value.(killed := true))
         else old(currentProcess))
      ensures stateEvents == old(stateEvents)
    {
      if cts.Some? {
        cts := Some(TokenSource(true));
      }
      if currentProcess.Some? && !currentProcess.value.exited {
        if !killFails {
          currentProcess := Some(currentProcess.value.(killed := true));
        }
      }
    }

    /** `Dispose`: cancels; disposing the handles does not clear the fields. */
    method Dispose(killFails: bool)
      modifies this
      ensures cts == (if old(cts).Some? then Some(TokenSource(true)) else None)
      ensures currentProcess ==
        (if old(IsProcessing()) && !killFails then Some(old(currentProcess).value.(killed := true))
         else old(currentProcess))
      ensures stateEvents == old(stateEvents)
    {
      CancelCurrentRequest(killFails);
    }

    /**
     * `SendMessageAsync`, run to its end by its consumer. `commandLine` is the
     * argument string the process is started with (None when nothing is
     * started). Whatever happens after the path check, the fields end cleared
     * and `false` is the last event; `true` is raised only for a started process.
     */
    method SendMessageAsync(message: string, systemPrompt: Option<string>, cliPath: Option<string>,
                            start: StartResult, cancel: Cancellation)
      returns (commandLine: Option<string>, chunks: seq<string>, outcome: SendOutcome)
      modifies this
      ensures chunks == Yielded(cliPath, start, cancel)
      ensures outcome == Outcome(cliPath, start, cancel)
      ensures commandLine == if HasText(cliPath) then Some(BuildArguments(message, systemPrompt)) else None
      ensures !HasText(cliPath) ==>
        currentProcess == old(currentProcess) && cts == old(cts) && stateEvents == old(stateEvents)
      ensures HasText(cliPath) ==>
        && currentProcess == None && cts == None
        && stateEvents == old(stateEvents) + (if start.Started? then [true, false] else [false])
    {
      chunks := [];
      if !HasText(cliPath) {
        commandLine := None;
        outcome := NotInstalled;
        return;
      }
      cts := Some(TokenSource(false));
      commandLine := Some(BuildArguments(message, systemPrompt));
      ghost var before := stateEvents;
      match start {
        case StartReturnedNull =>
          currentProcess := None;
          outcome := FailedToStart;
        case StartThrew =>
          outcome := StartError;
        case Started(out, code, err) =>
          currentProcess := Some(ProcessHandle(false, false));
          stateEvents := stateEvents + [true];
          var cancelled;
          chunks, cancelled := ReadStdout(out, cancel);
          if cancelled || cancel.WhileFinishing? {
            // a cancelled read ends the loop and the wait then throws; a token
            // cancelled during the wait or the stderr read throws there
            outcome := Cancelled;
          } else {
            currentProcess := Some(ProcessHandle(true, false));
            if code != 0 {
              if !IsBlank(err) {
                chunks := chunks + ["\n\n**Error:** " + err];
              }
            }
            assert chunks == Chunks(out) + ErrorChunk(code, err);
            outcome := Completed;
          }
          assert chunks == Yielded(cliPath, start, cancel);
      }
      assert stateEvents == before + (if start.Started? then [true] else []);
      CleanupProcess();
      assert before + [true] + [false] == before + [true, false];
    }
  }

  /**
   * The read loop of `SendMessageAsync`: one character at a time, with the
   * token checked before each read. It stops cancelled exactly when the token
   * fires no later than the end of stdout, having yielded what came before.
   */
  method ReadStdout(out: string, cancel: Cancellation) returns (chunks: seq<string>, cancelled: bool)
    ensures cancelled <==> CancelledDuringRead(out, cancel)
    ensures chunks == if cancelled then Chunks(out[..cancel.n]) else Chunks(out)
  {
    chunks := [];
    var k := 0;
    cancelled := cancel.AfterChunks? && cancel.n <= k;
    while k < |out| && !cancelled
      invariant 0 <= k <= |out|
      invariant chunks == Chunks(out[..k])
      invariant cancelled <==> cancel.AfterChunks? && cancel.n <= k
      invariant cancelled ==> cancel.n == k
      decreases |out| - k
    {
      assert out[..k + 1] == out[..k] + [out[k]];
      ChunksAppend(out[..k], out[k]);
      chunks := chunks + [[out[k]]];
      k := k + 1;
      cancelled := cancel.AfterChunks? && cancel.n <= k;
    }
    if !cancelled {
      assert out[..k] == out;
    }
  }

  lemma {:induction false} ChunksAppend(s: string, c: char)
    ensures Chunks(s + [c]) == Chunks(s) + [[c]]
  {
  }
}
