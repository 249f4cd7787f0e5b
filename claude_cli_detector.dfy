/**
 * Locating the Claude CLI executable: a fixed per-platform list of candidate
 * files, then a `which`/`where` lookup, with the answer cached. File existence
 * and the lookup's process run are oracle inputs; the folders the candidates
 * live under are parameters.
 */
module CliDetector {
  import opened Wrappers
  import opened Text

  datatype Platform = Windows | MacOS | Linux

  /** The special folders the candidate paths are built from. */
  datatype Folders = Folders(localAppData: string, programFiles: string, appData: string, userProfile: string)

  /** `GetCandidatePaths`, in the order they are probed. */
  function CandidatePaths(platform: Platform, f: Folders, separator: char): (r: seq<string>)
    ensures platform == Windows ==> |r| == 3
    ensures platform != Windows ==>
      (|r| == 4
       && r[2] == Combine([f.userProfile, ".local", "bin", "claude"], separator)
       && r[3] == Combine([f.userProfile, ".npm-global", "bin", "claude"], separator))
    ensures platform == MacOS ==> r[..2] == ["/usr/local/bin/claude", "/opt/homebrew/bin/claude"]
    ensures platform == Linux ==> r[..2] == ["/usr/bin/claude", "/usr/local/bin/claude"]
  {
    match platform
    case Windows => [
      Combine([f.localAppData, "Programs", "claude", "claude.exe"], separator),
      Combine([f.programFiles, "claude", "claude.exe"], separator),
      Combine([f.appData, "npm", "claude.cmd"], separator)]
    case MacOS => [
      "/usr/local/bin/claude",
      "/opt/homebrew/bin/claude",
      Combine([f.userProfile, ".local", "bin", "claude"], separator),
      Combine([f.userProfile, ".npm-global", "bin", "claude"], separator)]
    case Linux => [
      "/usr/bin/claude",
      "/usr/local/bin/claude",
      Combine([f.userProfile, ".local", "bin", "claude"], separator),
      Combine([f.userProfile, ".npm-global", "bin", "claude"], separator)]
  }

  /** On Windows every candidate ends in `claude.exe` or the npm shim `claude.cmd`. */
  lemma WindowsCandidatesNameTheExecutable(f: Folders)
    ensures var r := CandidatePaths(Windows, f, '\\');
      forall i :: 0 <= i < |r| ==> EndsWith(r[i], "\\claude.exe") || EndsWith(r[i], "\\claude.cmd")
  {
    InstallerPathNamesTheExecutable(f.localAppData);
    ProgramFilesPathNamesTheExecutable(f.programFiles);
    NpmShimPathNamesTheExecutable(f.appData);
  }

  lemma InstallerPathNamesTheExecutable(localAppData: string)
    ensures EndsWith(Combine([localAppData, "Programs", "claude", "claude.exe"], '\\'), "\\claude.exe")
  {
    CombineEndsWith([localAppData, "Programs", "claude", "claude.exe"], '\\');
  }

  lemma ProgramFilesPathNamesTheExecutable(programFiles: string)
    ensures EndsWith(Combine([programFiles, "claude", "claude.exe"], '\\'), "\\claude.exe")
  {
    CombineEndsWith([programFiles, "claude", "claude.exe"], '\\');
  }

  lemma NpmShimPathNamesTheExecutable(appData: string)
    ensures EndsWith(Combine([appData, "npm", "claude.cmd"], '\\'), "\\claude.cmd")
  {
    CombineEndsWith([appData, "npm", "claude.cmd"], '\\');
  }

  /** Elsewhere, with `/` as the separator, every candidate ends in `/claude`. */
  lemma UnixCandidatesNameTheExecutable(platform: Platform, f: Folders)
    requires platform != Windows
    ensures var r := CandidatePaths(platform, f, '/');
      forall i :: 0 <= i < |r| ==> EndsWith(r[i], "/claude")
  {
    FixedPathsNameTheExecutable();
    HomePathsNameTheExecutable(f.userProfile);
    var r := CandidatePaths(platform, f, '/');
    assert r[0] == r[..2][0] && r[1] == r[..2][1];
  }

  lemma FixedPathsNameTheExecutable()
    ensures EndsWith("/usr/bin/claude", "/claude")
    ensures EndsWith("/usr/local/bin/claude", "/claude")
    ensures EndsWith("/opt/homebrew/bin/claude", "/claude")
  {
    assert EndsWith("/usr/bin/claude", "/claude") by {
      assert "/usr/bin/claude" == "/usr/bin" + "/claude";
      EndsWithAppend("/usr/bin", "/claude");
    }
    assert EndsWith("/usr/local/bin/claude", "/claude") by {
      assert "/usr/local/bin/claude" == "/usr/local/bin" + "/claude";
      EndsWithAppend("/usr/local/bin", "/claude");
    }
    assert EndsWith("/opt/homebrew/bin/claude", "/claude") by {
      assert "/opt/homebrew/bin/claude" == "/opt/homebrew/bin" + "/claude";
      EndsWithAppend("/opt/homebrew/bin", "/claude");
    }
  }

  lemma HomePathsNameTheExecutable(home: string)
    ensures EndsWith(Combine([home, ".local", "bin", "claude"], '/'), "/claude")
    ensures EndsWith(Combine([home, ".npm-global", "bin", "claude"], '/'), "/claude")
  {
    CombineEndsWith([home, ".local", "bin", "claude"], '/');
    CombineEndsWith([home, ".npm-global", "bin", "claude"], '/');
    assert ['/'] + "claude" == "/claude";
  }

  /** The index of the first candidate the file-existence oracle accepts. */
  function FirstExisting(candidates: seq<string>, fileExists: string -> bool): (r: Option<nat>)
    ensures r.Some? ==>
      (r.value < |candidates| && fileExists(candidates[r.value])
       && forall j :: 0 <= j < r.value ==> !fileExists(candidates[j]))
    ensures r.None? ==> forall j :: 0 <= j < |candidates| ==> !fileExists(candidates[j])
    decreases |candidates|
  {
    if candidates == [] then None
    else if fileExists(candidates[0]) then Some(0)
    else match FirstExisting(candidates[1..], fileExists)
      case None => None
      case Some(k) => Some(k + 1)
  }

  /** How a helper process run (`which`/`where`, `--version`) ended. */
  datatype RunResult = NotStarted | Threw | Exited(exitCode: int, stdout: string)

  /** The lookup program: `where` on Windows, `which` elsewhere (always asked for `claude`). */
  function LookupProgram(platform: Platform): string {
    if platform == Windows then "where" else "which"
  }

  /** The trimmed first line of the trimmed output. */
  function FirstLine(output: string): string {
    Trim(Before(Trim(output), '\n'))
  }

  /** The first line holds no line break and starts and ends with a visible character. */
  lemma FirstLineClean(output: string)
    ensures var r := FirstLine(output);
      '\n' !in r && (r != [] ==> !IsWhiteSpace(r[0]) && !IsWhiteSpace(r[|r| - 1]))
  {
    var line := Before(Trim(output), '\n');
    var r := Trim(line);
    assert '\n' !in line;
    var a, b := |TrimEnd(line)| - |r|, |TrimEnd(line)|;
    assert 0 <= a <= b <= |line| && r == line[a..b] && (r != [] ==> !IsWhiteSpace(r[0]) && !IsWhiteSpace(r[|r| - 1])) by {
      TrimIsSlice(line);
    }
    NotInSlice(line, a, b, '\n');
  }

  lemma NotInSlice(s: string, a: nat, b: nat, c: char)
    requires a <= b <= |s| && c !in s
    ensures c !in s[a..b]
  {
    forall i | 0 <= i < b - a ensures s[a..b][i] != c {
      assert s[a..b][i] == s[a + i];
    }
  }

  /** `TryFindInPathAsync`: the first line on a zero exit, if it is not empty. */
  function PathFromLookup(run: RunResult): (r: Option<string>)
    ensures r.Some? <==> run.Exited? && run.exitCode == 0 && FirstLine(run.stdout) != []
    ensures r.Some? ==> r.value == FirstLine(run.stdout)
  {
    if run.Exited? && run.exitCode == 0 then
      var line := FirstLine(run.stdout);
      if line == [] then None else Some(line)
    else None
  }

  /**
   * A lookup that prints a path on its first line (possibly ended by `\r\n`,
   * possibly followed by more paths or padded with white space) yields
   * exactly that path.
   */
  lemma FirstLineOfListing(path: string, cr: bool, rest: string)
    requires path != [] && '\n' !in path
    requires !IsWhiteSpace(path[0]) && !IsWhiteSpace(path[|path| - 1])
    ensures FirstLine(path + (if cr then "\r\n" else "\n") + rest) == path
    ensures FirstLine(path) == path
  {
    var output := path + (if cr then "\r\n" else "\n") + rest;
    LineBeforeBreak(path, cr, rest);
    TrimOfTrimmed(path);
    TrimDropsReturn(path);
    BeforeNoSep(path, '\n');
  }

  /** What precedes the first line break of the trimmed listing: the path, with the `\r` of a `\r\n`. */
  lemma LineBeforeBreak(path: string, cr: bool, rest: string)
    requires path != [] && '\n' !in path
    requires !IsWhiteSpace(path[0]) && !IsWhiteSpace(path[|path| - 1])
    ensures var line := Before(Trim(path + (if cr then "\r\n" else "\n") + rest), '\n');
      line == path || line == path + "\r"
  {
    var eol := if cr then "\r\n" else "\n";
    var tail := eol + rest;
    assert path + eol + rest == path + tail;
    var u := TrimmedTail(path, tail);
    BeforeBreak(path, u, tail);
  }

  /** Trimming `path + tail` leaves `path` followed by a prefix of `tail` that does not end in white space. */
  lemma TrimmedTail(path: string, tail: string) returns (u: string)
    requires path != [] && !IsWhiteSpace(path[0]) && !IsWhiteSpace(path[|path| - 1])
    ensures Trim(path + tail) == path + u
    ensures u <= tail
    ensures u != [] ==> !IsWhiteSpace(u[|u| - 1])
  {
    var output := path + tail;
    var t := Trim(output);
    assert |path| <= |t| && t == output[..|t|] by {
      TrimKeepsCore(path, tail);
    }
    u := t[|path|..];
    assert t == path + u by {
      assert output[..|path|] == path;
    }
    assert u == tail[..|t| - |path|];
    if u != [] {
      assert u[|u| - 1] == t[|t| - 1];
      assert !IsWhiteSpace(t[|t| - 1]) by {
        TrimIsSlice(output);
      }
    }
  }

  /**
   * `path` followed by a prefix `u` of a text that starts with a line break
   * (or `\r` and a line break) and does not end in white space: the part
   * before the first break is `path` or `path + "\r"`.
   */
  lemma BeforeBreak(path: string, u: string, tail: string)
    requires '\n' !in path
    requires u <= tail
    requires (|tail| >= 1 && tail[0] == '\n') || (|tail| >= 2 && tail[0] == '\r' && tail[1] == '\n')
    requires u != [] ==> !IsWhiteSpace(u[|u| - 1])
    ensures Before(path + u, '\n') == path || Before(path + u, '\n') == path + "\r"
  {
    if u == [] {
      assert path + u == path;
      BeforeNoSep(path, '\n');
    } else if u[0] == '\n' {
      assert path + u == path + ['\n'] + u[1..];
      BeforeOfConcat(path, '\n', u[1..]);
    } else {
      assert u[0] == '\r';
      assert |u| >= 2 by { assert IsWhiteSpace('\r'); }
      assert u[1] == '\n';
      assert path + u == (path + "\r") + ['\n'] + u[2..];
      BeforeOfConcat(path + "\r", '\n', u[2..]);
    }
  }

  /** Trimming removes a trailing carriage return. */
  lemma TrimDropsReturn(path: string)
    requires path != [] && !IsWhiteSpace(path[0]) && !IsWhiteSpace(path[|path| - 1])
    ensures Trim(path + "\r") == path
  {
    TrimKeepsCore(path, "\r");
    TrimIsSlice(path + "\r");
    assert IsWhiteSpace('\r');
  }

  /** `GetVersionAsync` once a path is known: the trimmed output on a zero exit, else null. */
  function VersionFromRun(run: RunResult): (r: Option<string>)
    ensures r.Some? <==> run.Exited? && run.exitCode == 0
    ensures r.Some? ==> r.value == Trim(run.stdout) && (r.value != [] ==> !IsWhiteSpace(r.value[0]))
  {
    if run.Exited? && run.exitCode == 0 then Some(Trim(run.stdout)) else None
  }

  /** Where detection lands when nothing is cached: the first existing candidate, else the lookup. */
  function Detect(candidates: seq<string>, fileExists: string -> bool, lookup: RunResult): (r: Option<string>)
    ensures FirstExisting(candidates, fileExists).Some? ==>
      r == Some(candidates[FirstExisting(candidates, fileExists).value])
    ensures FirstExisting(candidates, fileExists).None? ==> r == PathFromLookup(lookup)
  {
    match FirstExisting(candidates, fileExists)
    case Some(i) => Some(candidates[i])
    case None => PathFromLookup(lookup)
  }

  /** Detection never produces an empty path: a found path is always usable. */
  lemma DetectedPathHasText(candidates: seq<string>, fileExists: string -> bool, lookup: RunResult)
    requires forall i :: 0 <= i < |candidates| ==> candidates[i] != []
    ensures Detect(candidates, fileExists, lookup).Some? ==> HasText(Detect(candidates, fileExists, lookup))
  {
  }

  /** The candidates `File.Exists` is asked about: up to and including the first that exists. */
  function Probed(candidates: seq<string>, fileExists: string -> bool): (r: seq<string>)
    ensures r <= candidates
  {
    match FirstExisting(candidates, fileExists)
    case Some(i) => candidates[..i + 1]
    case None => candidates
  }

  class ClaudeCliDetector {
    var cachedPath: Option<string>
    var cachedInstalled: Option<bool>
    /** Every path handed to `File.Exists`, oldest first. */
    var probed: seq<string>
    /** Every lookup program started, oldest first. */
    var lookups: seq<string>

    constructor ()
      ensures cachedPath == None && cachedInstalled == None && probed == [] && lookups == []
    {
      cachedPath := None;
      cachedInstalled := None;
      probed := [];
      lookups := [];
    }

    /**
     * `GetCliPathAsync`: a cached path is returned without probing anything;
     * otherwise the candidates are probed in order, the first existing one is
     * cached and returned, and only when none exists is the lookup run, its
     * result (possibly null) becoming the cached path.
     */
    method GetCliPathAsync(platform: Platform, folders: Folders, separator: char,
                           fileExists: string -> bool, lookup: RunResult)
      returns (path: Option<string>)
      modifies this
      ensures old(cachedPath).Some? ==>
        path == old(cachedPath) && cachedPath == old(cachedPath) && probed == old(probed) && lookups == old(lookups)
      ensures old(cachedPath).None? ==>
        var candidates := CandidatePaths(platform, folders, separator);
        && path == Detect(candidates, fileExists, lookup)
        && cachedPath == path
        && probed == old(probed) + Probed(candidates, fileExists)
        && lookups == old(lookups)
             + (if FirstExisting(candidates, fileExists).None? then [LookupProgram(platform)] else [])
      ensures cachedInstalled == old(cachedInstalled)
    {
      if cachedPath.Some? {
        return cachedPath;
      }
      var candidates := CandidatePaths(platform, folders, separator);
      var found := ProbeCandidates(candidates, fileExists);
      if found.Some? {
        cachedPath := found;
        return cachedPath;
      }
      lookups := lookups + [LookupProgram(platform)];
      cachedPath := PathFromLookup(lookup);
      path := cachedPath;
    }

    /** The probing loop of `GetCliPathAsync`: each candidate in turn until one exists. */
    method ProbeCandidates(candidates: seq<string>, fileExists: string -> bool) returns (found: Option<string>)
      modifies this
      ensures found == match FirstExisting(candidates, fileExists)
        case Some(i) => Some(candidates[i])
        case None => None
      ensures probed == old(probed) + Probed(candidates, fileExists)
      ensures cachedPath == old(cachedPath) && lookups == old(lookups) && cachedInstalled == old(cachedInstalled)
    {
      var i := 0;
      while i < |candidates|
        invariant 0 <= i <= |candidates|
        invariant forall j :: 0 <= j < i ==> !fileExists(candidates[j])
        invariant probed == old(probed) + candidates[..i]
        invariant cachedPath == old(cachedPath) && lookups == old(lookups)
        invariant cachedInstalled == old(cachedInstalled)
      {
        probed := probed + [candidates[i]];
        assert candidates[..i + 1] == candidates[..i] + [candidates[i]];
        if fileExists(candidates[i]) {
          FirstExistingAt(candidates, fileExists, i);
          return Some(candidates[i]);
        }
        i := i + 1;
      }
      assert candidates[..i] == candidates;
      FirstExistingNone(candidates, fileExists);
      found := None;
    }

    /** `IsInstalledAsync`: a cached answer (true or false) is returned as is; otherwise it is computed once and cached. */
    method IsInstalledAsync(platform: Platform, folders: Folders, separator: char,
                            fileExists: string -> bool, lookup: RunResult)
      returns (installed: bool)
      modifies this
      ensures old(cachedInstalled).Some? ==>
        installed == old(cachedInstalled).value
        && cachedPath == old(cachedPath) && probed == old(probed) && lookups == old(lookups)
      ensures old(cachedInstalled).None? ==>
        var path := if old(cachedPath).Some? then old(cachedPath)
                    else Detect(CandidatePaths(platform, folders, separator), fileExists, lookup);
        installed == HasText(path) && cachedPath == path
      ensures old(cachedInstalled).None? && old(cachedPath).Some? ==> probed == old(probed) && lookups == old(lookups)
      ensures old(cachedInstalled).None? && old(cachedPath).None? ==>
        var candidates := CandidatePaths(platform, folders, separator);
        && probed == old(probed) + Probed(candidates, fileExists)
        && lookups == old(lookups)
             + (if FirstExisting(candidates, fileExists).None? then [LookupProgram(platform)] else [])
      ensures cachedInstalled == Some(installed)
    {
      if cachedInstalled.Some? {
        return cachedInstalled.value;
      }
      var path := GetCliPathAsync(platform, folders, separator, fileExists, lookup);
      cachedInstalled := Some(HasText(path));
      installed := cachedInstalled.value;
    }

    /** `GetVersionAsync`: null without a usable path, else what the `--version` run gives. */
    method GetVersionAsync(platform: Platform, folders: Folders, separator: char,
                           fileExists: string -> bool, lookup: RunResult, versionRun: RunResult)
      returns (version: Option<string>)
      modifies this
      ensures var path := if old(cachedPath).Some? then old(cachedPath)
                          else Detect(CandidatePaths(platform, folders, separator), fileExists, lookup);
        cachedPath == path
        && version == (if HasText(path) then VersionFromRun(versionRun) else None)
      ensures old(cachedPath).Some? ==> probed == old(probed) && lookups == old(lookups)
      ensures old(cachedPath).None? ==>
        var candidates := CandidatePaths(platform, folders, separator);
        && probed == old(probed) + Probed(candidates, fileExists)
        && lookups == old(lookups)
             + (if FirstExisting(candidates, fileExists).None? then [LookupProgram(platform)] else [])
      ensures cachedInstalled == old(cachedInstalled)
    {
      var path := GetCliPathAsync(platform, folders, separator, fileExists, lookup);
      if !HasText(path) {
        return None;
      }
      version := VersionFromRun(versionRun);
    }

    /** `ClearCache`: both caches forgotten, so the next call detects again. */
    method ClearCache()
      modifies this
      ensures cachedPath == None && cachedInstalled == None
      ensures probed == old(probed) && lookups == old(lookups)
    {
      cachedPath := None;
      cachedInstalled := None;
    }
  }

  lemma FirstExistingAt(candidates: seq<string>, fileExists: string -> bool, i: nat)
    requires i < |candidates| && fileExists(candidates[i])
    requires forall j :: 0 <= j < i ==> !fileExists(candidates[j])
    ensures FirstExisting(candidates, fileExists) == Some(i)
  {
  }

  lemma FirstExistingNone(candidates: seq<string>, fileExists: string -> bool)
    requires forall j :: 0 <= j < |candidates| ==> !fileExists(candidates[j])
    ensures FirstExisting(candidates, fileExists).None?
  {
  }

  /**
   * A null detection means every candidate was probed and the lookup found
   * nothing. (`GetCliPathAsync` then caches null, so the next call detects again.)
   */
  lemma NullDetectionProbesEverything(candidates: seq<string>, fileExists: string -> bool, lookup: RunResult)
    requires Detect(candidates, fileExists, lookup).None?
    ensures FirstExisting(candidates, fileExists).None? && PathFromLookup(lookup).None?
    ensures Probed(candidates, fileExists) == candidates
  {
  }
}
