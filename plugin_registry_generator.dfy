/**
 * The registry tool: it finds the solution root, then for every plugin
 * project picks a build configuration whose DLL exists, reads the plugin's
 * manifest and derives the package URI on the CDN; the entries are written
 * sorted by id. Directory listings, file existence, environment variables and
 * the manifest loaded by reflection are oracle inputs.
 */
module RegistryGenerator {
  import opened Wrappers
  import opened Text

  /** One entry of the generated registry. */
  datatype PluginInfo = PluginInfo(id: string, name: string, version: string, uri: string)

  // ----- names derived from the manifest id -----

  /** The last of the pieces `Split` returns (`Split(...).Last()`). */
  function LastPiece(s: string, sep: char): string {
    var parts := Split(s, sep);
    parts[|parts| - 1]
  }

  /** The last piece is the text after the last separator (all of `s` when there is none). */
  lemma {:induction false} LastPieceIsSuffix(s: string, sep: char)
    ensures var p := LastPiece(s, sep);
      && |p| <= |s| && p == s[|s| - |p|..] && sep !in p
      && (|p| < |s| ==> s[|s| - |p| - 1] == sep)
      && (|Split(s, sep)| == 1 ==> p == s)
      && (|Split(s, sep)| > 1 ==> |p| < |s|)
    decreases |s|
  {
    if s != [] {
      LastPieceIsSuffix(s[1..], sep);
      var rest := Split(s[1..], sep);
      var q := rest[|rest| - 1];
      var parts := Split(s, sep);
      if s[0] == sep {
        assert parts == [[]] + rest;
        assert parts[|parts| - 1] == q;
      } else if |rest| == 1 {
        assert parts == [[s[0]] + rest[0]];
        assert s == [s[0]] + s[1..];
      } else {
        assert parts == [[s[0]] + rest[0]] + rest[1..];
        assert parts[|parts| - 1] == q;
      }
    }
  }

  /** `manifest.Id.Split('.').Last().ToLowerInvariant()`. */
  function ShortName(id: string): string {
    ToLower(LastPiece(id, '.'))
  }

  /**
   * The short name is the lower-cased text after the last dot of the id: it
   * holds no dot and no upper-case ASCII letter.
   */
  lemma ShortNameShape(id: string)
    ensures var s := ShortName(id); var n := |s|;
      && n <= |id|
      && s == ToLower(id[|id| - n..])
      && '.' !in s
      && (n < |id| ==> id[|id| - n - 1] == '.')
      && forall i :: 0 <= i < n ==> !('A' <= s[i] <= 'Z')
  {
    LastPieceIsSuffix(id, '.');
    var p := LastPiece(id, '.');
    var s := ShortName(id);
    forall i | 0 <= i < |s| ensures s[i] != '.' {
      assert s[i] == LowerChar(p[i]);
      assert p[i] != '.';
    }
  }

  lemma ShortNameOfNotes()
    ensures ShortName("Mythetech.Plugins.Notes") == "notes"
  {
    var head, last := "Mythetech.Plugins", "Notes";
    assert head + ['.'] + last == "Mythetech.Plugins.Notes";
    LastPieceOfConcat(head, '.', last);
    assert ToLower(last) == "notes";
  }

  /** Whatever comes before the last separator, the last piece is what follows it. */
  lemma LastPieceOfConcat(a: string, sep: char, b: string)
    requires sep !in b
    ensures LastPiece(a + [sep] + b, sep) == b
  {
    SplitAtSeparator(a, sep, b);
    SplitWithoutSeparator(b, sep);
    var pa := Split(a, sep);
    assert Split(a + [sep] + b, sep) == pa + [b];
  }

  /** `manifest.Id.Replace(".", "-")`. */
  function PackageName(id: string): string {
    ReplaceChar(id, '.', "-")
  }

  /** Replacing a character by a one-character string works position by position. */
  lemma {:induction false} ReplaceCharPointwise(s: string, c: char, d: char)
    ensures var r := ReplaceChar(s, c, [d]);
      |r| == |s| && forall i :: 0 <= i < |s| ==> r[i] == if s[i] == c then d else s[i]
    decreases |s|
  {
    if s != [] {
      ReplaceCharPointwise(s[1..], c, d);
    }
  }

  /** The package name has the id's length, dashes where the id has dots, and no dot. */
  lemma PackageNameShape(id: string)
    ensures var r := PackageName(id);
      |r| == |id| && '.' !in r
      && forall i :: 0 <= i < |id| ==> r[i] == if id[i] == '.' then '-' else id[i]
  {
    ReplaceCharPointwise(id, '.', '-');
  }

  /** For an id without dashes, turning the dashes back into dots restores the id. */
  lemma PackageNameInverse(id: string)
    requires '-' !in id
    ensures ReplaceChar(PackageName(id), '-', ".") == id
  {
    var r := PackageName(id);
    PackageNameShape(id);
    ReplaceCharPointwise(r, '-', '.');
    var back := ReplaceChar(r, '-', ".");
    assert forall i :: 0 <= i < |id| ==> back[i] == id[i];
  }

  /** `$"{packageName}-latest.zip"`. */
  function ZipName(id: string): string {
    PackageName(id) + "-latest.zip"
  }

  /** `$"{cdnBase.TrimEnd('/')}/release/plugins/{shortName}/{zipName}"`. */
  function PackageUri(cdnBase: string, id: string): string {
    TrimEndChar(cdnBase, '/') + "/release/plugins/" + ShortName(id) + "/" + ZipName(id)
  }

  function Slashes(k: nat): string
    decreases k
  {
    if k == 0 then [] else Slashes(k - 1) + "/"
  }

  /** Trailing slashes on the CDN prefix make no difference to the URI. */
  lemma UriIgnoresTrailingSlashes(cdnBase: string, id: string, k: nat)
    ensures PackageUri(cdnBase + Slashes(k), id) == PackageUri(cdnBase, id)
  {
    TrimEndSlashes(cdnBase, k);
  }

  /** `TrimEnd('/')` removes any number of added slashes. */
  lemma {:induction false} TrimEndSlashes(s: string, k: nat)
    ensures TrimEndChar(s + Slashes(k), '/') == TrimEndChar(s, '/')
    decreases k
  {
    if k > 0 {
      var t := s + Slashes(k);
      assert t[|t| - 1] == '/' && t[..|t| - 1] == s + Slashes(k - 1) by {
        assert Slashes(k) == Slashes(k - 1) + "/";
        AppendAssoc(s, Slashes(k - 1), "/");
      }
      TrimEndSlashes(s, k - 1);
    } else {
      assert s + Slashes(k) == s;
    }
  }

  lemma TrimEndCharSlash(s: string)
    ensures TrimEndChar(s + "/", '/') == TrimEndChar(s, '/')
  {
    var t := s + "/";
    assert t != [] && t[|t| - 1] == '/';
    assert t[..|t| - 1] == s;
  }

  /**
   * Split on `/`, an id without slashes puts the short name and the zip name
   * in the URI's last two segments: the URI can be read back.
   */
  lemma UriEndsWithSegments(cdnBase: string, id: string)
    requires '/' !in id
    ensures var parts := Split(PackageUri(cdnBase, id), '/');
      |parts| >= 2 && parts[|parts| - 1] == ZipName(id) && parts[|parts| - 2] == ShortName(id)
  {
    var short, zip := ShortName(id), ZipName(id);
    ShortNameHasNoSlash(id);
    ZipNameHasNoSlash(id);
    var head := TrimEndChar(cdnBase, '/') + "/release/plugins";
    var tail := short + ['/'] + zip;
    assert PackageUri(cdnBase, id) == head + ['/'] + tail;
    SplitAtSeparator(head, '/', tail);
    SplitAtSeparator(short, '/', zip);
    SplitWithoutSeparator(short, '/');
    SplitWithoutSeparator(zip, '/');
    assert Split(tail, '/') == [short, zip];
  }

  lemma ShortNameHasNoSlash(id: string)
    requires '/' !in id
    ensures '/' !in ShortName(id)
  {
    ShortNameShape(id);
    var short := ShortName(id);
    var n := |short|;
    forall i | 0 <= i < n ensures short[i] != '/' {
      assert short[i] == LowerChar(id[|id| - n + i]);
    }
  }

  lemma ZipNameHasNoSlash(id: string)
    requires '/' !in id
    ensures '/' !in ZipName(id)
  {
    PackageNameShape(id);
    var pkg := PackageName(id);
    assert '/' !in pkg by {
      forall i | 0 <= i < |pkg| ensures pkg[i] != '/' {
        assert pkg[i] == if id[i] == '.' then '-' else id[i];
      }
    }
    assert ZipName(id) == pkg + "-latest.zip";
  }

  /** Splitting at a separator splits the pieces of both sides. */
  lemma {:induction false} SplitAtSeparator(a: string, sep: char, b: string)
    ensures Split(a + [sep] + b, sep) == Split(a, sep) + Split(b, sep)
    decreases |a|
  {
    var pb := Split(b, sep);
    if a == [] {
      assert a + [sep] + b == [sep] + b;
      SplitCons(sep, b, sep);
    } else {
      var s, x := a + [sep] + b, a[1..] + [sep] + b;
      assert s[0] == a[0] && s[1..] == x;
      SplitAtSeparator(a[1..], sep, b);
      var ra := Split(a[1..], sep);
      if a[0] == sep {
        AppendAssoc([[]], ra, pb);
      } else {
        assert (ra + pb)[0] == ra[0] && (ra + pb)[1..] == ra[1..] + pb;
        AppendAssoc([[a[0]] + ra[0]], ra[1..], pb);
      }
    }
  }

  lemma SplitCons(c: char, x: string, sep: char)
    ensures var r := Split(x, sep);
      Split([c] + x, sep) == if c == sep then [[]] + r else [[c] + r[0]] + r[1..]
  {
    assert ([c] + x)[1..] == x;
  }

  lemma {:induction false} SplitWithoutSeparator(a: string, sep: char)
    requires sep !in a
    ensures Split(a, sep) == [a]
    decreases |a|
  {
    if a != [] {
      assert sep !in a[1..] by {
        forall i | 0 <= i < |a[1..]| ensures a[1..][i] != sep {
          assert a[1..][i] == a[i + 1];
        }
      }
      SplitWithoutSeparator(a[1..], sep);
      assert a[0] != sep;
      assert [a[0]] + a[1..] == a;
    }
  }

  // ----- ordering the entries -----

  /** A comparison of ids that can sort: total and transitive (the comparer `OrderBy` uses). */
  ghost predicate TotalPreorder(leq: (string, string) -> bool) {
    && (forall a, b :: leq(a, b) || leq(b, a))
    && (forall a, b, c :: leq(a, b) && leq(b, c) ==> leq(a, c))
  }

  predicate SortedById(ps: seq<PluginInfo>, leq: (string, string) -> bool) {
    forall i, j :: 0 <= i < j < |ps| ==> leq(ps[i].id, ps[j].id)
  }

  /** Insert `p` after every entry that does not sort strictly after it. */
  function Insert(p: PluginInfo, sorted: seq<PluginInfo>, leq: (string, string) -> bool): seq<PluginInfo>
    decreases |sorted|
  {
    if sorted == [] then [p]
    else if leq(sorted[0].id, p.id) then [sorted[0]] + Insert(p, sorted[1..], leq)
    else [p] + sorted
  }

  /** `OrderBy(p => p.id)`, as an insertion sort. */
  function SortById(ps: seq<PluginInfo>, leq: (string, string) -> bool): seq<PluginInfo>
    decreases |ps|
  {
    if ps == [] then [] else Insert(ps[|ps| - 1], SortById(ps[..|ps| - 1], leq), leq)
  }

  lemma {:induction false} InsertMultiset(p: PluginInfo, sorted: seq<PluginInfo>, leq: (string, string) -> bool)
    ensures multiset(Insert(p, sorted, leq)) == multiset(sorted) + multiset{p}
    decreases |sorted|
  {
    if sorted != [] && leq(sorted[0].id, p.id) {
      InsertMultiset(p, sorted[1..], leq);
      assert sorted == [sorted[0]] + sorted[1..];
    }
  }

  lemma {:induction false} InsertSorted(p: PluginInfo, sorted: seq<PluginInfo>, leq: (string, string) -> bool)
    requires TotalPreorder(leq)
    requires SortedById(sorted, leq)
    ensures var r := Insert(p, sorted, leq);
      |r| == |sorted| + 1 && SortedById(r, leq) && (r[0] == p || r[0] == sorted[0])
    decreases |sorted|
  {
    if sorted != [] {
      if leq(sorted[0].id, p.id) {
        var tail := Insert(p, sorted[1..], leq);
        InsertSorted(p, sorted[1..], leq);
        assert leq(sorted[0].id, tail[0].id) by {
          if tail[0] != p {
            assert tail[0] == sorted[1];
          }
        }
        ConsSorted(sorted[0], tail, leq);
      } else {
        ConsSorted(p, sorted, leq);
      }
    }
  }

  /** An entry that sorts no later than the head of a sorted list extends it. */
  lemma ConsSorted(h: PluginInfo, ps: seq<PluginInfo>, leq: (string, string) -> bool)
    requires TotalPreorder(leq) && SortedById(ps, leq)
    requires ps != [] ==> leq(h.id, ps[0].id)
    ensures SortedById([h] + ps, leq)
  {
    var r := [h] + ps;
    forall i, j | 0 <= i < j < |r| ensures leq(r[i].id, r[j].id) {
      assert r[j] == ps[j - 1];
      if i == 0 {
        if j > 1 {
          assert leq(ps[0].id, ps[j - 1].id);
        }
      } else {
        assert r[i] == ps[i - 1];
      }
    }
  }

  /** The emitted list is sorted by id and holds exactly the collected entries. */
  lemma {:induction false} SortByIdCorrect(ps: seq<PluginInfo>, leq: (string, string) -> bool)
    requires TotalPreorder(leq)
    ensures SortedById(SortById(ps, leq), leq)
    ensures multiset(SortById(ps, leq)) == multiset(ps)
    decreases |ps|
  {
    if ps != [] {
      var init := ps[..|ps| - 1];
      SortByIdCorrect(init, leq);
      InsertSorted(ps[|ps| - 1], SortById(init, leq), leq);
      InsertMultiset(ps[|ps| - 1], SortById(init, leq), leq);
      assert ps == init + [ps[|ps| - 1]];
    }
  }

  // ----- choosing the DLL -----

  /** `PLUGIN_BUILD_CONFIGURATION ?? (bin/Release exists ? "Release" : "Debug")`. */
  function Configuration(envOverride: Option<string>, hasReleaseBin: bool): string {
    match envOverride
    case Some(c) => c
    case None => if hasReleaseBin then "Release" else "Debug"
  }

  /** The configuration tried when the first one's DLL is missing. */
  function Alternative(configuration: string): string {
    if configuration == "Debug" then "Release" else "Debug"
  }

  /**
   * The configuration whose DLL is loaded, if any: the chosen one when its DLL
   * exists, else the alternative when its DLL exists, else none (skipped).
   */
  function ChosenConfiguration(envOverride: Option<string>, hasReleaseBin: bool, built: set<string>): (r: Option<string>)
    ensures var c := Configuration(envOverride, hasReleaseBin);
      && (c in built ==> r == Some(c))
      && (c !in built && Alternative(c) in built ==> r == Some(Alternative(c)))
      && (r.None? <==> c !in built && Alternative(c) !in built)
    ensures r.Some? ==> r.value in built
  {
    var c := Configuration(envOverride, hasReleaseBin);
    if c in built then Some(c)
    else if Alternative(c) in built then Some(Alternative(c))
    else None
  }

  /**
   * Whatever is picked is "Debug", "Release" or the override itself; an empty
   * override counts as set (only a missing variable falls back).
   */
  lemma ChosenConfigurationCases(envOverride: Option<string>, hasReleaseBin: bool, built: set<string>)
    ensures var r := ChosenConfiguration(envOverride, hasReleaseBin, built);
      r.Some? ==> r.value == "Debug" || r.value == "Release" || envOverride == Some(r.value)
    ensures envOverride == Some("") && "" in built ==> ChosenConfiguration(envOverride, hasReleaseBin, built) == Some("")
    ensures envOverride.None? && !hasReleaseBin && "Debug" !in built && "Release" in built ==>
      ChosenConfiguration(envOverride, hasReleaseBin, built) == Some("Release")
  {
  }

  // ----- one plugin directory -----

  /** What reflection found in the loaded assembly. */
  datatype ManifestLoad =
    | LoadThrew          // loading the assembly or reading its types threw
    | NoManifestType     // no type named Manifest implements the manifest interface
    | NotInstantiated    // the instance could not be created
    | Loaded(id: string, name: string, version: string)

  /** A project directory under `src`, with what the file system and reflection report about it. */
  datatype PluginDir = PluginDir(
    path: string,
    projectName: string,
    hasReleaseBin: bool,
    builtConfigurations: set<string>,
    manifest: ManifestLoad)

  /** `bin/<configuration>/net10.0/<project>.dll` under the project directory. */
  function DllPath(dir: PluginDir, configuration: string, separator: char): string {
    Combine([dir.path, "bin", configuration, "net10.0", dir.projectName + ".dll"], separator)
  }

  /** The registry entry a directory contributes, if any. */
  function EntryOf(dir: PluginDir, envOverride: Option<string>, cdnBase: string): Option<PluginInfo> {
    if ChosenConfiguration(envOverride, dir.hasReleaseBin, dir.builtConfigurations).None? then None
    else match dir.manifest
      case Loaded(id, name, version) => Some(PluginInfo(id, name, version, PackageUri(cdnBase, id)))
      case _ => None
  }

  /** The entries of the directories, in directory order. */
  function Collect(dirs: seq<PluginDir>, envOverride: Option<string>, cdnBase: string): seq<PluginInfo>
    decreases |dirs|
  {
    if dirs == [] then []
    else
      var init := Collect(dirs[..|dirs| - 1], envOverride, cdnBase);
      match EntryOf(dirs[|dirs| - 1], envOverride, cdnBase)
      case Some(p) => init + [p]
      case None => init
  }

  /**
   * Every collected entry carries the URI derived from its own id and comes
   * from a directory whose manifest loaded with that id and whose DLL exists.
   */
  lemma {:induction false} CollectedEntries(dirs: seq<PluginDir>, envOverride: Option<string>, cdnBase: string)
    ensures var ps := Collect(dirs, envOverride, cdnBase);
      |ps| <= |dirs|
      && forall i :: 0 <= i < |ps| ==>
        ps[i].uri == PackageUri(cdnBase, ps[i].id)
        && exists k :: (0 <= k < |dirs| && dirs[k].manifest.Loaded? && dirs[k].manifest.id == ps[i].id
             && ChosenConfiguration(envOverride, dirs[k].hasReleaseBin, dirs[k].builtConfigurations).Some?)
    decreases |dirs|
  {
    if dirs != [] {
      var init := dirs[..|dirs| - 1];
      CollectedEntries(init, envOverride, cdnBase);
      var ps := Collect(dirs, envOverride, cdnBase);
      var pi := Collect(init, envOverride, cdnBase);
      forall i | 0 <= i < |ps|
        ensures ps[i].uri == PackageUri(cdnBase, ps[i].id)
        ensures exists k :: (0 <= k < |dirs| && dirs[k].manifest.Loaded? && dirs[k].manifest.id == ps[i].id
             && ChosenConfiguration(envOverride, dirs[k].hasReleaseBin, dirs[k].builtConfigurations).Some?)
      {
        if i < |pi| {
          assert ps[i] == pi[i];
          var k :| 0 <= k < |init| && init[k].manifest.Loaded? && init[k].manifest.id == pi[i].id
             && ChosenConfiguration(envOverride, init[k].hasReleaseBin, init[k].builtConfigurations).Some?;
          assert dirs[k] == init[k];
        } else {
          assert dirs[|dirs| - 1].manifest.Loaded?;
        }
      }
    }
  }

  /**
   * The DLLs handed to `Assembly.LoadFrom`, in directory order: one for every
   * directory whose chosen configuration (or its fallback) was built, whatever
   * reflection then finds in it.
   */
  function LoadedDlls(dirs: seq<PluginDir>, envOverride: Option<string>, separator: char): (r: seq<string>)
    ensures |r| <= |dirs|
    decreases |dirs|
  {
    if dirs == [] then []
    else
      var last := dirs[|dirs| - 1];
      var init := LoadedDlls(dirs[..|dirs| - 1], envOverride, separator);
      match ChosenConfiguration(envOverride, last.hasReleaseBin, last.builtConfigurations)
      case Some(c) => init + [DllPath(last, c, separator)]
      case None => init
  }

  /** Only DLLs that exist are loaded: each is the built DLL of some directory's chosen configuration. */
  lemma {:induction false} LoadedDllsExist(dirs: seq<PluginDir>, envOverride: Option<string>, separator: char)
    ensures forall dll :: dll in LoadedDlls(dirs, envOverride, separator) ==>
      exists k :: 0 <= k < |dirs| && LoadsFrom(dirs[k], envOverride, separator, dll)
    decreases |dirs|
  {
    if dirs != [] {
      var init := dirs[..|dirs| - 1];
      LoadedDllsExist(init, envOverride, separator);
      var r := LoadedDlls(dirs, envOverride, separator);
      forall dll | dll in r
        ensures exists k :: 0 <= k < |dirs| && LoadsFrom(dirs[k], envOverride, separator, dll)
      {
        if dll in LoadedDlls(init, envOverride, separator) {
          var k :| 0 <= k < |init| && LoadsFrom(init[k], envOverride, separator, dll);
          assert dirs[k] == init[k];
        } else {
          assert LoadsFrom(dirs[|dirs| - 1], envOverride, separator, dll);
        }
      }
    }
  }

  /** `dll` is the DLL of `dir` in the configuration chosen for it, and that configuration was built. */
  predicate LoadsFrom(dir: PluginDir, envOverride: Option<string>, separator: char, dll: string) {
    var c := ChosenConfiguration(envOverride, dir.hasReleaseBin, dir.builtConfigurations);
    c.Some? && c.value in dir.builtConfigurations && dll == DllPath(dir, c.value, separator)
  }

  /** Every registry entry comes from a loaded assembly, so there are no more entries than loads. */
  lemma {:induction false} EntriesWithinLoads(dirs: seq<PluginDir>, envOverride: Option<string>, cdnBase: string, separator: char)
    ensures |Collect(dirs, envOverride, cdnBase)| <= |LoadedDlls(dirs, envOverride, separator)|
    decreases |dirs|
  {
    if dirs != [] {
      EntriesWithinLoads(dirs[..|dirs| - 1], envOverride, cdnBase, separator);
    }
  }

  /** The `foreach` over the project directories, appending each entry found. */
  method CollectPlugins(dirs: seq<PluginDir>, envOverride: Option<string>, cdnBase: string, separator: char)
    returns (plugins: seq<PluginInfo>, loaded: seq<string>)
    ensures plugins == Collect(dirs, envOverride, cdnBase)
    ensures loaded == LoadedDlls(dirs, envOverride, separator)
  {
    plugins := [];
    loaded := [];
    var i := 0;
    while i < |dirs|
      invariant 0 <= i <= |dirs|
      invariant plugins == Collect(dirs[..i], envOverride, cdnBase)
      invariant loaded == LoadedDlls(dirs[..i], envOverride, separator)
    {
      var dir := dirs[i];
      assert dirs[..i + 1][..i] == dirs[..i];
      var configuration := Configuration(envOverride, dir.hasReleaseBin);
      var dllPath := DllPath(dir, configuration, separator);
      var found := true;
      if configuration !in dir.builtConfigurations {
        var alternative := Alternative(configuration);
        if alternative in dir.builtConfigurations {
          dllPath := DllPath(dir, alternative, separator);
        } else {
          found := false;
        }
      }
      if found {
        loaded := loaded + [dllPath];
        match dir.manifest {
          case Loaded(id, name, version) =>
            var shortName := ShortName(id);
            var packageName := PackageName(id);
            var zipName := packageName + "-latest.zip";
            var uri := TrimEndChar(cdnBase, '/') + "/release/plugins/" + shortName + "/" + zipName;
            plugins := plugins + [PluginInfo(id, name, version, uri)];
          case _ =>
        }
      }
      i := i + 1;
    }
    assert dirs[..i] == dirs;
  }

  // ----- the solution root and the whole run -----

  /** A directory on the way up from the working directory. */
  datatype Directory = Directory(fullName: string, hasSolutionFile: bool)

  /** The index of the nearest directory in the chain that holds a `*.sln` file. */
  function NearestSolution(chain: seq<Directory>): (r: Option<nat>)
    ensures r.Some? ==>
      (r.value < |chain| && chain[r.value].hasSolutionFile
       && forall j :: 0 <= j < r.value ==> !chain[j].hasSolutionFile)
    ensures r.None? ==> forall j :: 0 <= j < |chain| ==> !chain[j].hasSolutionFile
    decreases |chain|
  {
    if chain == [] then None
    else if chain[0].hasSolutionFile then Some(0)
    else match NearestSolution(chain[1..])
      case None => None
      case Some(k) => Some(k + 1)
  }

  /**
   * `FindSolutionRoot`: walk up from the working directory (`chain[0]`, then
   * each parent in turn) and return the first directory with a solution file.
   */
  method FindSolutionRoot(chain: seq<Directory>) returns (root: Option<string>)
    ensures root.Some? <==> NearestSolution(chain).Some?
    ensures root.Some? ==> root.value == chain[NearestSolution(chain).value].fullName
  {
    var i := 0;
    while i < |chain|
      invariant 0 <= i <= |chain|
      invariant forall j :: 0 <= j < i ==> !chain[j].hasSolutionFile
    {
      if chain[i].hasSolutionFile {
        NearestSolutionAt(chain, i);
        return Some(chain[i].fullName);
      }
      i := i + 1;
    }
    NearestSolutionNone(chain);
    return None;
  }

  lemma NearestSolutionAt(chain: seq<Directory>, i: nat)
    requires i < |chain| && chain[i].hasSolutionFile
    requires forall j :: 0 <= j < i ==> !chain[j].hasSolutionFile
    ensures NearestSolution(chain) == Some(i)
  {
  }

  lemma NearestSolutionNone(chain: seq<Directory>)
    requires forall j :: 0 <= j < |chain| ==> !chain[j].hasSolutionFile
    ensures NearestSolution(chain).None?
  {
  }

  /** How a run of the tool ends. */
  datatype Generation =
    | NoSolutionRoot
    | MissingCdnPrefix
    | MissingSourceDir
    | Generated(outputPath: string, plugins: seq<PluginInfo>)

  /** The whole run: the checks in their order, then the sorted entries and where they are written. */
  function Generate(chain: seq<Directory>, cdnEnv: Option<string>, srcDirExists: bool, dirs: seq<PluginDir>,
                    envOverride: Option<string>, leq: (string, string) -> bool, separator: char): Generation
  {
    match NearestSolution(chain)
    case None => NoSolutionRoot
    case Some(k) =>
      if !HasText(cdnEnv) then MissingCdnPrefix
      else if !srcDirExists then MissingSourceDir
      else Generated(Combine([chain[k].fullName, "mythetech-plugin-registry.json"], separator),
                     SortById(Collect(dirs, envOverride, cdnEnv.value), leq))
  }

  /**
   * The tool's top level. `processed` lists the project directories it worked
   * on: none at all unless the root, the CDN prefix and `src` are all there.
   */
  method GenerateRegistry(chain: seq<Directory>, cdnEnv: Option<string>, srcDirExists: bool, dirs: seq<PluginDir>,
                          envOverride: Option<string>, leq: (string, string) -> bool, separator: char)
    returns (result: Generation, processed: seq<string>)
    ensures result == Generate(chain, cdnEnv, srcDirExists, dirs, envOverride, leq, separator)
    ensures result.Generated? ==> |processed| == |dirs| && forall i :: 0 <= i < |dirs| ==> processed[i] == dirs[i].projectName
    ensures !result.Generated? ==> processed == []
  {
    processed := [];
    var solutionRoot := FindSolutionRoot(chain);
    if solutionRoot.None? {
      return NoSolutionRoot, processed;
    }
    if !HasText(cdnEnv) {
      return MissingCdnPrefix, processed;
    }
    if !srcDirExists {
      return MissingSourceDir, processed;
    }
    processed := seq(|dirs|, i requires 0 <= i < |dirs| => dirs[i].projectName);
    var plugins, _ := CollectPlugins(dirs, envOverride, cdnEnv.value, separator);
    var outputPath := Combine([solutionRoot.value, "mythetech-plugin-registry.json"], separator);
    result := Generated(outputPath, SortById(plugins, leq));
  }

  /**
   * A generated registry lists exactly the collected entries, sorted by id,
   * each with the URI its id derives; a missing or empty CDN prefix stops the
   * run after the root is found and before any directory is looked at.
   */
  lemma GeneratedRegistry(chain: seq<Directory>, cdnEnv: Option<string>, srcDirExists: bool, dirs: seq<PluginDir>,
                          envOverride: Option<string>, leq: (string, string) -> bool, separator: char)
    requires TotalPreorder(leq)
    ensures var g := Generate(chain, cdnEnv, srcDirExists, dirs, envOverride, leq, separator);
      && (g.Generated? <==> NearestSolution(chain).Some? && HasText(cdnEnv) && srcDirExists)
      && (g == MissingCdnPrefix <==> NearestSolution(chain).Some? && !HasText(cdnEnv))
      && (g.Generated? ==>
            var collected := Collect(dirs, envOverride, cdnEnv.value);
            && SortedById(g.plugins, leq)
            && multiset(g.plugins) == multiset(collected)
            && forall i :: 0 <= i < |g.plugins| ==> g.plugins[i].uri == PackageUri(cdnEnv.value, g.plugins[i].id))
  {
    var g := Generate(chain, cdnEnv, srcDirExists, dirs, envOverride, leq, separator);
    if g.Generated? {
      var collected := Collect(dirs, envOverride, cdnEnv.value);
      SortByIdCorrect(collected, leq);
      CollectedEntries(dirs, envOverride, cdnEnv.value);
      forall i | 0 <= i < |g.plugins| ensures g.plugins[i].uri == PackageUri(cdnEnv.value, g.plugins[i].id) {
        assert g.plugins[i] in multiset(collected);
        var j :| 0 <= j < |collected| && collected[j] == g.plugins[i];
      }
    }
  }
}
