/**
 * How a started process receives its arguments from the single command-line
 * string `ProcessStartInfo.Arguments`. The .NET runtime splits that string by
 * the rule of the Microsoft C runtime: arguments are separated by spaces or
 * tabs outside quotes; `"` switches quoting on and off; inside quotes `""` is
 * one literal quote; a run of n backslashes followed by `"` yields n/2
 * backslashes and, when n is odd, a literal quote; a run that no quote
 * follows is kept as it is.
 *
 * Also the quoting under which every string arrives intact.
 */
module CommandLine {

  predicate IsArgSpace(c: char) {
    c == ' ' || c == '\t'
  }

  function Backslashes(n: nat): string {
    seq(n, _ => '\\')
  }

  /** The length of the run of backslashes `t` starts with. */
  function LeadingBackslashes(t: string): (n: nat)
    ensures n <= |t|
    ensures n < |t| ==> t[n] != '\\'
    decreases |t|
  {
    if t != [] && t[0] == '\\' then 1 + LeadingBackslashes(t[1..]) else 0
  }

  lemma {:induction false} LeadingRun(t: string)
    ensures forall i :: 0 <= i < LeadingBackslashes(t) ==> t[i] == '\\'
    decreases |t|
  {
    if t != [] && t[0] == '\\' {
      LeadingRun(t[1..]);
      forall i | 0 <= i < LeadingBackslashes(t) ensures t[i] == '\\' {
        if i > 0 {
          assert t[i] == t[1..][i - 1];
        }
      }
    }
  }

  function Prepend(s: string, r: (string, string)): (string, string) {
    (s + r.0, r.1)
  }

  /**
   * One argument read from the front of `t` (quoting state `inQuotes`): the
   * argument and the text left after it, which starts at the separating space
   * or is empty.
   */
  function NextArgument(t: string, inQuotes: bool): (r: (string, string))
    ensures |r.1| <= |t|
    ensures t != [] && !(IsArgSpace(t[0]) && !inQuotes) ==> |r.1| < |t|
    decreases |t|
  {
    if t == [] then ([], [])
    else if t[0] == '\\' then
      var n := LeadingBackslashes(t);
      if n == |t| || t[n] != '"' then Prepend(Backslashes(n), NextArgument(t[n..], inQuotes))
      else if n % 2 == 1 then Prepend(Backslashes(n / 2) + "\"", NextArgument(t[n + 1..], inQuotes))
      else Prepend(Backslashes(n / 2), NextArgument(t[n..], inQuotes))
    else if t[0] == '"' then
      if inQuotes && |t| > 1 && t[1] == '"' then Prepend("\"", NextArgument(t[2..], inQuotes))
      else NextArgument(t[1..], !inQuotes)
    else if IsArgSpace(t[0]) && !inQuotes then ([], t)
    else Prepend([t[0]], NextArgument(t[1..], inQuotes))
  }

  /** The argument vector the process sees. */
  function ParseArgs(t: string): seq<string>
    decreases |t|
  {
    if t == [] then []
    else if IsArgSpace(t[0]) then ParseArgs(t[1..])
    else
      var r := NextArgument(t, false);
      [r.0] + ParseArgs(r.1)
  }

  /**
   * The text to put between quotes so that `s` arrives intact: a run of
   * backslashes is doubled when a quote or the closing quote follows it, and
   * each `"` gets one more backslash in front.
   */
  function EscapeForQuotes(s: string): string
    decreases |s|
  {
    if s == [] then []
    else
      var n := LeadingBackslashes(s);
      if n == |s| then Backslashes(2 * n)
      else if s[n] == '"' then Backslashes(2 * n + 1) + "\"" + EscapeForQuotes(s[n + 1..])
      else Backslashes(n) + [s[n]] + EscapeForQuotes(s[n + 1..])
  }

  /** One argument, quoted so that it arrives as it is. */
  function QuoteArgument(s: string): string {
    "\"" + EscapeForQuotes(s) + "\""
  }

  // ----- steps of the splitting rule -----

  /** Text that may follow an argument: nothing, or a separating space. */
  predicate EndsArgument(rest: string) {
    rest == [] || IsArgSpace(rest[0])
  }

  lemma {:induction false} RunThenText(m: nat, t: string)
    requires t == [] || t[0] != '\\'
    ensures LeadingBackslashes(Backslashes(m) + t) == m
    ensures (Backslashes(m) + t)[m..] == t
    decreases m
  {
    if m > 0 {
      RunThenText(m - 1, t);
      var u := Backslashes(m) + t;
      assert u[1..] == Backslashes(m - 1) + t;
    }
  }

  /** A string is its leading run of backslashes followed by the rest. */
  lemma SplitLeadingRun(s: string)
    ensures var n := LeadingBackslashes(s); s == Backslashes(n) + s[n..]
  {
    var n := LeadingBackslashes(s);
    LeadingRun(s);
    assert s[..n] == Backslashes(n);
    assert s == s[..n] + s[n..];
  }

  lemma ClosingQuote(rest: string)
    requires EndsArgument(rest)
    ensures NextArgument("\"" + rest, true) == ([], rest)
  {
    var t := "\"" + rest;
    assert t[1..] == rest;
  }

  lemma PlainChar(c: char, x: string, inQuotes: bool)
    requires c != '\\' && c != '"' && (inQuotes || !IsArgSpace(c))
    ensures NextArgument([c] + x, inQuotes) == Prepend([c], NextArgument(x, inQuotes))
  {
    assert ([c] + x)[1..] == x;
  }

  lemma LiteralRun(m: nat, x: string, inQuotes: bool)
    requires m > 0 && x != [] && x[0] != '\\' && x[0] != '"'
    ensures NextArgument(Backslashes(m) + x, inQuotes) == Prepend(Backslashes(m), NextArgument(x, inQuotes))
  {
    RunThenText(m, x);
  }

  lemma OddRunThenQuote(k: nat, x: string, inQuotes: bool)
    ensures NextArgument(Backslashes(2 * k + 1) + "\"" + x, inQuotes)
         == Prepend(Backslashes(k) + "\"", NextArgument(x, inQuotes))
  {
    var m := 2 * k + 1;
    var t := Backslashes(m) + ("\"" + x);
    assert LeadingBackslashes(t) == m && t[m..] == "\"" + x by { RunThenText(m, "\"" + x); }
    assert t[0] == '\\' && t[m] == '"';
    assert m % 2 == 1 && m / 2 == k;
    assert t[m + 1..] == x;
    assert Backslashes(m) + "\"" + x == t;
  }

  lemma EvenRunThenQuote(k: nat, x: string, inQuotes: bool)
    requires k > 0
    ensures NextArgument(Backslashes(2 * k) + "\"" + x, inQuotes)
         == Prepend(Backslashes(k), NextArgument("\"" + x, inQuotes))
  {
    var m := 2 * k;
    var t := Backslashes(m) + ("\"" + x);
    RunThenText(m, "\"" + x);
    assert Backslashes(m) + "\"" + x == t;
  }

  /** Inside quotes, the escaped text and the closing quote read back as `s`. */
  lemma {:induction false} QuotedBody(s: string, rest: string)
    requires EndsArgument(rest)
    ensures NextArgument(EscapeForQuotes(s) + "\"" + rest, true) == (s, rest)
    decreases |s|, 1
  {
    var n := LeadingBackslashes(s);
    if n == |s| {
      QuotedRunAtEnd(s, rest);
    } else {
      QuotedRunThen(s, rest);
    }
  }

  /** `s` is a run of backslashes, one more character and a tail. */
  lemma {:induction false} QuotedRunThen(s: string, rest: string)
    requires EndsArgument(rest)
    requires LeadingBackslashes(s) < |s|
    ensures NextArgument(EscapeForQuotes(s) + "\"" + rest, true) == (s, rest)
    decreases |s|, 0
  {
    QuotedBody(s[LeadingBackslashes(s) + 1..], rest);
    if s[LeadingBackslashes(s)] == '"' {
      QuotedRunThenQuote(s, rest);
    } else {
      QuotedRunThenChar(s, rest);
    }
  }

  lemma RunThenCharSplit(s: string)
    requires LeadingBackslashes(s) < |s|
    ensures var n := LeadingBackslashes(s); Backslashes(n) + [s[n]] + s[n + 1..] == s
  {
    RunPrefix(s);
    SplitAround(s, LeadingBackslashes(s));
  }

  /** The leading run, taken as a prefix, is that many backslashes. */
  lemma RunPrefix(s: string)
    ensures s[..LeadingBackslashes(s)] == Backslashes(LeadingBackslashes(s))
  {
    LeadingRun(s);
  }

  lemma SplitAround(s: string, n: nat)
    requires n < |s|
    ensures s[..n] + [s[n]] + s[n + 1..] == s
  {
    assert s[..n + 1] == s[..n] + [s[n]];
    assert s == s[..n + 1] + s[n + 1..];
  }

  /** `s` is all backslashes (or empty): the escape doubles them and the closing quote ends the argument. */
  lemma QuotedRunAtEnd(s: string, rest: string)
    requires EndsArgument(rest) && LeadingBackslashes(s) == |s|
    ensures NextArgument(EscapeForQuotes(s) + "\"" + rest, true) == (s, rest)
  {
    if s == [] {
      assert EscapeForQuotes(s) + "\"" + rest == "\"" + rest;
      ClosingQuote(rest);
      return;
    }
    var n := |s|;
    assert s == Backslashes(n) by { SplitLeadingRun(s); }
    assert EscapeForQuotes(s) + "\"" + rest == Backslashes(2 * n) + "\"" + rest;
    EvenRunThenQuote(n, rest, true);
    ClosingQuote(rest);
    assert Backslashes(n) + [] == s;
  }

  /** `s` is a run of backslashes, a quote and `tail`, which already reads back. */
  lemma QuotedRunThenQuote(s: string, rest: string)
    requires EndsArgument(rest)
    requires LeadingBackslashes(s) < |s| && s[LeadingBackslashes(s)] == '"'
    requires var tail := s[LeadingBackslashes(s) + 1..];
      NextArgument(EscapeForQuotes(tail) + "\"" + rest, true) == (tail, rest)
    ensures NextArgument(EscapeForQuotes(s) + "\"" + rest, true) == (s, rest)
  {
    var n := LeadingBackslashes(s);
    var tail := s[n + 1..];
    var x := EscapeForQuotes(tail) + "\"" + rest;
    assert EscapeForQuotes(s) + "\"" + rest == Backslashes(2 * n + 1) + "\"" + x by {
      assert EscapeForQuotes(s) == Backslashes(2 * n + 1) + "\"" + EscapeForQuotes(tail);
      RegroupTail(Backslashes(2 * n + 1), "\"", EscapeForQuotes(tail), "\"", rest);
    }
    OddRunThenQuote(n, x, true);
    assert Backslashes(n) + "\"" + tail == s by { RunThenCharSplit(s); }
  }

  /** `s` is a run of backslashes, an ordinary character and `tail`, which already reads back. */
  lemma QuotedRunThenChar(s: string, rest: string)
    requires EndsArgument(rest)
    requires LeadingBackslashes(s) < |s| && s[LeadingBackslashes(s)] != '"'
    requires var tail := s[LeadingBackslashes(s) + 1..];
      NextArgument(EscapeForQuotes(tail) + "\"" + rest, true) == (tail, rest)
    ensures NextArgument(EscapeForQuotes(s) + "\"" + rest, true) == (s, rest)
  {
    var n := LeadingBackslashes(s);
    var c, tail := s[n], s[n + 1..];
    var ct := [c] + tail;
    var x := EscapeForQuotes(tail) + "\"" + rest;
    assert EscapeForQuotes(s) + "\"" + rest == Backslashes(n) + ([c] + x) by {
      assert EscapeForQuotes(s) == Backslashes(n) + [c] + EscapeForQuotes(tail);
      Regroup(Backslashes(n), [c], EscapeForQuotes(tail), "\"", rest);
    }
    assert s == Backslashes(n) + ct by { RunThenCharSplit(s); }
    assert NextArgument(Backslashes(n) + ([c] + x), true) == (Backslashes(n) + ct, rest) by {
      PlainChar(c, x, true);
      RunThenChar(n, c, x, ct, rest);
    }
  }

  lemma RegroupTail(a: string, b: string, c: string, d: string, e: string)
    ensures a + b + c + d + e == a + b + (c + d + e)
  {
  }

  lemma Regroup(a: string, b: string, c: string, d: string, e: string)
    ensures a + b + c + d + e == a + (b + (c + d + e))
  {
  }

  lemma RunThenChar(n: nat, c: char, x: string, ct: string, rest: string)
    requires c != '\\' && c != '"'
    requires NextArgument([c] + x, true) == (ct, rest)
    ensures NextArgument(Backslashes(n) + ([c] + x), true) == (Backslashes(n) + ct, rest)
  {
    if n > 0 {
      LiteralRun(n, [c] + x, true);
    } else {
      assert Backslashes(n) + ([c] + x) == [c] + x;
      assert Backslashes(n) + ct == ct;
    }
  }

  /** A quoted argument followed by nothing or a space is read as exactly one argument, `s`. */
  lemma QuoteArgumentRoundTrip(s: string, rest: string)
    requires EndsArgument(rest)
    ensures ParseArgs(QuoteArgument(s) + rest) == [s] + ParseArgs(rest)
  {
    var t := QuoteArgument(s) + rest;
    var body := EscapeForQuotes(s) + "\"" + rest;
    assert t == "\"" + body;
    assert t[0] == '"' && t[1..] == body;
    assert NextArgument(t, false) == (s, rest) by {
      assert NextArgument(t, false) == NextArgument(body, true);
      QuotedBody(s, rest);
    }
  }

  /** A word without spaces, quotes or backslashes. */
  predicate PlainWord(w: string) {
    w != [] && forall i :: 0 <= i < |w| ==> !IsArgSpace(w[i]) && w[i] != '"' && w[i] != '\\'
  }

  lemma {:induction false} NextArgumentOfWord(w: string, rest: string)
    requires forall i :: 0 <= i < |w| ==> !IsArgSpace(w[i]) && w[i] != '"' && w[i] != '\\'
    requires EndsArgument(rest)
    ensures NextArgument(w + rest, false) == (w, rest)
    decreases |w|
  {
    if w != [] {
      NextArgumentOfWord(w[1..], rest);
      PlainChar(w[0], w[1..] + rest, false);
      assert w + rest == [w[0]] + (w[1..] + rest);
      assert [w[0]] + w[1..] == w;
    } else {
      assert w + rest == rest;
    }
  }

  /** A plain word followed by nothing or a space is read as itself. */
  lemma PlainWordRoundTrip(w: string, rest: string)
    requires PlainWord(w) && EndsArgument(rest)
    ensures ParseArgs(w + rest) == [w] + ParseArgs(rest)
  {
    NextArgumentOfWord(w, rest);
  }

  lemma LeadingSpace(x: string)
    ensures ParseArgs(" " + x) == ParseArgs(x)
  {
    assert (" " + x)[1..] == x;
  }
}
