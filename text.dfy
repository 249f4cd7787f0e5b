/**
 * The string operations of the .NET base library that the core relies on,
 * written out on `seq<char>`: `Char.IsWhiteSpace`, `Trim`, `TrimEnd(char)`,
 * `Split(char)`, `StartsWith`, `Replace`, `string.Join`, and an ASCII
 * case fold standing in for `ToLowerInvariant` / `OrdinalIgnoreCase`.
 */
module Text {
  import opened Wrappers

  /** `!string.IsNullOrEmpty` on a nullable string. */
  predicate HasText(s: Option<string>) {
    s.Some? && s.value != []
  }

  /** `Char.IsWhiteSpace`: the Unicode space separators plus U+0009..U+000D, U+0085. */
  predicate IsWhiteSpace(c: char) {
    c == ' ' || ('\t' <= c <= '\r') || c == '\U{85}' || c == '\U{A0}' || c == '\U{1680}'
    || ('\U{2000}' <= c <= '\U{200A}') || c == '\U{2028}' || c == '\U{2029}'
    || c == '\U{202F}' || c == '\U{205F}' || c == '\U{3000}'
  }

  /** `string.IsNullOrWhiteSpace` for a non-null string. */
  predicate IsBlank(s: string) {
    forall i :: 0 <= i < |s| ==> IsWhiteSpace(s[i])
  }

  predicate NoWhiteSpace(s: string) {
    forall i :: 0 <= i < |s| ==> !IsWhiteSpace(s[i])
  }

  /** `TrimStart()`: drops the longest all-white-space prefix. */
  function TrimStart(s: string): (r: string)
    ensures |r| <= |s| && r == s[|s| - |r|..]
    ensures forall i :: 0 <= i < |s| - |r| ==> IsWhiteSpace(s[i])
    ensures r != [] ==> !IsWhiteSpace(r[0])
  {
    if s != [] && IsWhiteSpace(s[0]) then TrimStart(s[1..]) else s
  }

  /** `TrimEnd()`: drops the longest all-white-space suffix. */
  function TrimEnd(s: string): (r: string)
    ensures |r| <= |s| && r == s[..|r|]
    ensures forall i :: |r| <= i < |s| ==> IsWhiteSpace(s[i])
    ensures r != [] ==> !IsWhiteSpace(r[|r| - 1])
  {
    if s != [] && IsWhiteSpace(s[|s| - 1]) then TrimEnd(s[..|s| - 1]) else s
  }

  /** `Trim()`. */
  function Trim(s: string): (r: string)
  {
    TrimStart(TrimEnd(s))
  }

  /** What `Trim` keeps: a slice of `s` with white space cut off both ends and nothing else. */
  lemma TrimIsSlice(s: string)
    ensures |Trim(s)| <= |TrimEnd(s)| <= |s|
    ensures Trim(s) == s[|TrimEnd(s)| - |Trim(s)|..|TrimEnd(s)|]
    ensures forall i :: 0 <= i < |TrimEnd(s)| - |Trim(s)| ==> IsWhiteSpace(s[i])
    ensures forall i :: |TrimEnd(s)| <= i < |s| ==> IsWhiteSpace(s[i])
    ensures Trim(s) != [] ==> !IsWhiteSpace(Trim(s)[0]) && !IsWhiteSpace(Trim(s)[|Trim(s)| - 1])
  {
    var e := TrimEnd(s);
    var r := TrimStart(e);
    var k := |e| - |r|;
    assert e == s[..|e|];
    assert r == e[k..];
    assert r == s[k..|e|];
    forall i | 0 <= i < k ensures IsWhiteSpace(s[i]) {
      assert s[i] == e[i];
    }
    if r != [] {
      assert r[|r| - 1] == e[|e| - 1];
    }
  }

  /** Trimming a string whose ends are not white space changes nothing. */
  lemma TrimOfTrimmed(s: string)
    requires s == [] || (!IsWhiteSpace(s[0]) && !IsWhiteSpace(s[|s| - 1]))
    ensures Trim(s) == s
  {
  }

  /** Trimming a text that begins with `core`, whose ends are not white space, keeps `core` whole at the front. */
  lemma TrimKeepsCore(core: string, tail: string)
    requires core != [] && !IsWhiteSpace(core[0]) && !IsWhiteSpace(core[|core| - 1])
    ensures var t := Trim(core + tail); |core| <= |t| && t == (core + tail)[..|t|]
  {
    var s := core + tail;
    TrimIsSlice(s);
    assert !IsWhiteSpace(s[0]);
    assert |TrimEnd(s)| - |Trim(s)| == 0;
    assert |TrimEnd(s)| >= |core| by {
      assert !IsWhiteSpace(s[|core| - 1]);
    }
  }

  /** `Trim` removes exactly the blank strings. */
  lemma {:induction false} TrimEmptyIffBlank(s: string)
    ensures Trim(s) == [] <==> IsBlank(s)
  {
    TrimIsSlice(s);
    var r := Trim(s);
    if r != [] {
      var k := |TrimEnd(s)| - |r|;
      assert r[0] == s[k] && !IsWhiteSpace(s[k]);
    } else {
      forall i | 0 <= i < |s| ensures IsWhiteSpace(s[i]) {
        if i >= |TrimEnd(s)| - |r| { assert i >= |TrimEnd(s)|; }
      }
    }
  }

  /** `TrimEnd(c)`: drops every trailing `c`. */
  function TrimEndChar(s: string, c: char): (r: string)
    ensures |r| <= |s| && r == s[..|r|]
    ensures forall i :: |r| <= i < |s| ==> s[i] == c
    ensures r != [] ==> r[|r| - 1] != c
  {
    if s != [] && s[|s| - 1] == c then TrimEndChar(s[..|s| - 1], c) else s
  }

  /** `StartsWith(prefix)`, ordinal. */
  predicate StartsWith(s: string, prefix: string) {
    |prefix| <= |s| && s[..|prefix|] == prefix
  }

  /** `Split(sep)` with no options: the pieces between separators, in order. */
  function Split(s: string, sep: char): (r: seq<string>)
    ensures |r| >= 1
    ensures forall k :: 0 <= k < |r| ==> sep !in r[k]
    decreases |s|
  {
    if s == [] then [[]]
    else
      var rest := Split(s[1..], sep);
      if s[0] == sep then [[]] + rest else [[s[0]] + rest[0]] + rest[1..]
  }

  /** `string.Join(sep, parts)`. */
  function Join(parts: seq<string>, sep: string): string
    decreases |parts|
  {
    if parts == [] then []
    else if |parts| == 1 then parts[0]
    else parts[0] + sep + Join(parts[1..], sep)
  }

  /** `Split` is undone by `Join` with the same separator. */
  lemma {:induction false} JoinSplit(s: string, sep: char)
    ensures Join(Split(s, sep), [sep]) == s
    decreases |s|
  {
    if s != [] {
      var rest := Split(s[1..], sep);
      JoinSplit(s[1..], sep);
      if s[0] == sep {
        assert s == [sep] + s[1..];
      } else {
        var r := Split(s, sep);
        if |rest| == 1 {
          assert r == [[s[0]] + rest[0]];
        } else {
          assert r[1..] == rest[1..];
          assert Join(r, [sep]) == [s[0]] + rest[0] + [sep] + Join(rest[1..], [sep]);
        }
      }
    }
  }

  lemma AppendAssoc<T>(a: seq<T>, b: seq<T>, c: seq<T>)
    ensures a + (b + c) == a + b + c
  {
  }

  /** Ends in a directory separator: the platform's own or `/`, which both platforms accept. */
  predicate EndsInSeparator(path: string, separator: char) {
    path != [] && (path[|path| - 1] == separator || path[|path| - 1] == '/')
  }

  /**
   * `Path.IsPathRooted`: the part starts with a directory separator or, on
   * Windows (where the separator is a backslash), with a drive letter and a colon.
   */
  predicate Rooted(part: string, separator: char) {
    (part != [] && (part[0] == separator || part[0] == '/'))
    || (separator == '\\' && |part| >= 2 && part[1] == ':'
        && ('a' <= part[0] <= 'z' || 'A' <= part[0] <= 'Z'))
  }

  /**
   * One part of `Path.Combine`: an empty part is skipped, a rooted part
   * replaces what came before, and a separator goes in only when the path so
   * far is non-empty and does not already end in one.
   */
  function CombineStep(path: string, part: string, separator: char): string {
    if part == [] then path
    else if path == [] || Rooted(part, separator) then part
    else if EndsInSeparator(path, separator) then path + part
    else path + [separator] + part
  }

  /** `Path.Combine(params string[])`: the parts folded from left to right. */
  function Combine(parts: seq<string>, separator: char): string
    decreases |parts|
  {
    if parts == [] then []
    else CombineStep(Combine(parts[..|parts| - 1], separator), parts[|parts| - 1], separator)
  }

  predicate EndsWith(s: string, suffix: string) {
    |suffix| <= |s| && s[|s| - |suffix|..] == suffix
  }

  lemma EndsWithAppend(a: string, b: string)
    ensures EndsWith(a + b, b)
  {
    assert (a + b)[|a|..] == b;
  }

  /** A combined path ends with its last part when that part is not empty. */
  lemma CombineEndsWithPart(parts: seq<string>, separator: char)
    requires parts != [] && parts[|parts| - 1] != []
    ensures EndsWith(Combine(parts, separator), parts[|parts| - 1])
  {
    var path, part := Combine(parts[..|parts| - 1], separator), parts[|parts| - 1];
    var r := CombineStep(path, part, separator);
    assert r == part || r == path + part || r == path + [separator] + part;
    assert r[|r| - |part|..] == part;
  }

  /**
   * When the last two parts are non-empty, the last is not rooted and the one
   * before does not end in a separator, the combined path ends with a
   * separator and the last part.
   */
  lemma CombineEndsWith(parts: seq<string>, separator: char)
    requires |parts| >= 2
    requires var last, prev := parts[|parts| - 1], parts[|parts| - 2];
      last != [] && !Rooted(last, separator) && prev != [] && !EndsInSeparator(prev, separator)
    ensures EndsWith(Combine(parts, separator), [separator] + parts[|parts| - 1])
  {
    var init := parts[..|parts| - 1];
    var prev, last := parts[|parts| - 2], parts[|parts| - 1];
    var path := Combine(init, separator);
    assert path != [] && !EndsInSeparator(path, separator) by {
      assert EndsWith(path, prev) by {
        assert init[|init| - 1] == prev;
        CombineEndsWithPart(init, separator);
      }
      assert path[|path| - 1] == prev[|prev| - 1];
    }
    assert Combine(parts, separator) == path + ([separator] + last) by {
      AppendAssoc(path, [separator], last);
    }
    EndsWithAppend(path, [separator] + last);
  }

  /** Combining one more part is one more step. */
  lemma CombineSnoc(parts: seq<string>, part: string, separator: char)
    ensures Combine(parts + [part], separator) == CombineStep(Combine(parts, separator), part, separator)
  {
    assert (parts + [part])[..|parts|] == parts;
  }

  /** Four parts are combined in four steps, from left to right. */
  lemma CombineFour(a: string, b: string, c: string, d: string, separator: char)
    ensures Combine([a, b, c, d], separator)
         == CombineStep(CombineStep(CombineStep(CombineStep([], a, separator), b, separator), c, separator), d, separator)
  {
    CombineSnoc([], a, separator);
    assert [] + [a] == [a];
    CombineSnoc([a], b, separator);
    assert [a] + [b] == [a, b];
    CombineSnoc([a, b], c, separator);
    assert [a, b] + [c] == [a, b, c];
    CombineSnoc([a, b, c], d, separator);
    assert [a, b, c] + [d] == [a, b, c, d];
  }

  /** A part after a trailing separator adds no second one: with the home directory `/`, no `//`. */
  lemma CombineAfterRoot()
    ensures Combine(["/", ".local", "bin", "claude"], '/') == "/.local/bin/claude"
  {
    CombineFour("/", ".local", "bin", "claude", '/');
    assert CombineStep([], "/", '/') == "/";
    assert CombineStep("/", ".local", '/') == "/.local";
    assert CombineStep("/.local", "bin", '/') == "/.local/bin";
    assert CombineStep("/.local/bin", "claude", '/') == "/.local/bin/claude";
  }

  /** An empty part adds nothing: with no local application folder, the path is relative. */
  lemma CombineSkipsEmpty()
    ensures Combine(["", "Programs", "claude", "claude.exe"], '\\') == "Programs\\claude\\claude.exe"
  {
    CombineFour("", "Programs", "claude", "claude.exe", '\\');
    assert CombineStep([], "", '\\') == "";
    assert CombineStep("", "Programs", '\\') == "Programs";
    assert CombineStep("Programs", "claude", '\\') == "Programs\\claude";
    assert CombineStep("Programs\\claude", "claude.exe", '\\') == "Programs\\claude\\claude.exe";
  }

  /** Text up to (not including) the first `sep`: the first piece of `Split(sep)`. */
  function Before(s: string, sep: char): string {
    Split(s, sep)[0]
  }

  /** The first piece is the longest `sep`-free prefix. */
  lemma {:induction false} BeforeIsPrefix(s: string, sep: char)
    ensures var b := Before(s, sep);
      |b| <= |s| && b == s[..|b|] && sep !in b && (|b| < |s| ==> s[|b|] == sep)
    decreases |s|
  {
    if s != [] && s[0] != sep {
      BeforeIsPrefix(s[1..], sep);
    }
  }

  /** A `sep`-free prefix followed by `sep` is exactly what comes before the first `sep`. */
  lemma {:induction false} BeforeOfConcat(a: string, sep: char, b: string)
    requires sep !in a
    ensures Before(a + [sep] + b, sep) == a
    decreases |a|
  {
    if a == [] {
      assert (a + [sep] + b)[0] == sep;
    } else {
      assert (a + [sep] + b)[1..] == a[1..] + [sep] + b;
      BeforeOfConcat(a[1..], sep, b);
    }
  }

  /** A string with no `sep` is its own first piece. */
  lemma {:induction false} BeforeNoSep(a: string, sep: char)
    requires sep !in a
    ensures Before(a, sep) == a
    decreases |a|
  {
    if a != [] {
      BeforeNoSep(a[1..], sep);
    }
  }

  /** ASCII upper-case letters folded to lower case; everything else unchanged. */
  function LowerChar(c: char): char {
    if 'A' <= c <= 'Z' then (c as int + 32) as char else c
  }

  /** `ToLowerInvariant` restricted to ASCII. */
  function ToLower(s: string): string
  {
    seq(|s|, i requires 0 <= i < |s| => LowerChar(s[i]))
  }

  /**
   * `StringComparison.OrdinalIgnoreCase` restricted to an ASCII fold:
   * same length, and the characters agree pairwise once folded.
   */
  predicate EqualsIgnoreCase(a: string, b: string)
    decreases |a|
  {
    |a| == |b| && (a == [] || (LowerChar(a[0]) == LowerChar(b[0]) && EqualsIgnoreCase(a[1..], b[1..])))
  }

  /** Comparing ignoring case is comparing the folded strings. */
  lemma {:induction false} EqualsIgnoreCaseIsFold(a: string, b: string)
    ensures EqualsIgnoreCase(a, b) <==> ToLower(a) == ToLower(b)
    decreases |a|
  {
    var la, lb := ToLower(a), ToLower(b);
    if a == [] || b == [] {
      assert la == [] || lb == [];
    } else {
      EqualsIgnoreCaseIsFold(a[1..], b[1..]);
      assert la == [LowerChar(a[0])] + ToLower(a[1..]);
      assert lb == [LowerChar(b[0])] + ToLower(b[1..]);
      if la == lb {
        assert la[1..] == ToLower(a[1..]) && lb[1..] == ToLower(b[1..]);
      }
    }
  }

  lemma {:induction false} EqualsIgnoreCaseRefl(a: string)
    ensures EqualsIgnoreCase(a, a)
  {
    EqualsIgnoreCaseIsFold(a, a);
  }

  lemma {:induction false} EqualsIgnoreCaseSym(a: string, b: string)
    ensures EqualsIgnoreCase(a, b) <==> EqualsIgnoreCase(b, a)
  {
    EqualsIgnoreCaseIsFold(a, b);
    EqualsIgnoreCaseIsFold(b, a);
  }

  /** `Replace(old, new)` for a one-character `old`: every `c` becomes `repl`. */
  function ReplaceChar(s: string, c: char, repl: string): (r: string)
    ensures c !in s ==> r == s
    decreases |s|
  {
    if s == [] then []
    else (if s[0] == c then repl else [s[0]]) + ReplaceChar(s[1..], c, repl)
  }

  lemma ReplaceCharAppend(a: string, b: string, c: char, repl: string)
    ensures ReplaceChar(a + b, c, repl) == ReplaceChar(a, c, repl) + ReplaceChar(b, c, repl)
    decreases |a|
  {
    if a == [] {
      assert a + b == b;
    } else {
      assert (a + b)[0] == a[0] && (a + b)[1..] == a[1..] + b;
      ReplaceCharAppend(a[1..], b, c, repl);
      var h := if a[0] == c then repl else [a[0]];
      calc {
        ReplaceChar(a + b, c, repl);
        h + ReplaceChar(a[1..] + b, c, repl);
        h + (ReplaceChar(a[1..], c, repl) + ReplaceChar(b, c, repl));
        (h + ReplaceChar(a[1..], c, repl)) + ReplaceChar(b, c, repl);
        ReplaceChar(a, c, repl) + ReplaceChar(b, c, repl);
      }
    }
  }

  /** Number of occurrences of `c` in `s`. */
  function Count(s: string, c: char): nat
    decreases |s|
  {
    if s == [] then 0 else (if s[0] == c then 1 else 0) + Count(s[1..], c)
  }

  /** Each `c` grows by `|repl| - 1` characters, the rest of the string is kept. */
  lemma {:induction false} ReplaceCharLength(s: string, c: char, repl: string)
    ensures |ReplaceChar(s, c, repl)| == |s| + Count(s, c) * (|repl| - 1)
    decreases |s|
  {
    if s != [] {
      ReplaceCharLength(s[1..], c, repl);
      var n, k := Count(s[1..], c), |repl| - 1;
      var rest := ReplaceChar(s[1..], c, repl);
      assert |rest| == |s| - 1 + n * k;
      if s[0] == c {
        assert |ReplaceChar(s, c, repl)| == |repl| + |rest|;
        assert Count(s, c) == n + 1;
        MulSucc(n, k);
      } else {
        assert |ReplaceChar(s, c, repl)| == 1 + |rest|;
        assert Count(s, c) == n;
      }
    }
  }

  lemma MulSucc(n: nat, k: int)
    ensures (n + 1) * k == n * k + k
  {
  }
}
