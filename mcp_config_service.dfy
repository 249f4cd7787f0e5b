/**
 * The store of tool-server entries behind the Agent plugin: an optional
 * entry contributed by the host application plus an ordered list of
 * user-added entries, its validation rules, its best-effort persistence, the
 * host-state reconciliation, and the `{"mcpServers": {...}}` configuration
 * handed to the Claude CLI.
 *
 * The pure part is stated on `Store` values; the class `McpConfigService`
 * holds the same two fields and its methods are proved to move from one
 * `Store` to the next exactly as the functions below say.
 */
module McpConfig {
  import opened Wrappers
  import opened Text
  import opened Models

  /** The fixed name of the entry contributed by the host application. */
  const HostAppName: string := "host-app"

  /** The JSON document model the configuration is serialised into. */
  datatype Json =
    | JNull
    | JString(str: string)
    | JArray(items: seq<Json>)
    | JObject(members: seq<(string, Json)>)

  /** `HostAppServer` and `_servers`. */
  datatype Store = Store(host: Option<McpServerConfig>, servers: seq<McpServerConfig>)

  /** What the host's `McpServerState` exposes: a nullable endpoint and a running flag. */
  datatype HostState = HostState(httpEndpoint: Option<string>, isRunning: bool)

  /** Why `AddServerAsync` throws. */
  datatype AddError = NameRequired | DuplicateName

  datatype AddResult = Added(store: Store) | Rejected(error: AddError)

  /** What the store keeps true: only the host slot holds a host-app entry. */
  ghost predicate Valid(st: Store) {
    && (forall i :: 0 <= i < |st.servers| ==> !st.servers[i].isHostApp)
    && (st.host.Some? ==>
          st.host.value.isHostApp && st.host.value.name == HostAppName
          && st.host.value.transport == Http)
  }

  /** No two entries of the full list have names equal up to case. */
  ghost predicate UniqueNames(st: Store) {
    NamesUnique(AllServers(st))
  }

  /** No two entries of `servers` have names equal up to case. */
  ghost predicate NamesUnique(servers: seq<McpServerConfig>) {
    forall i, j :: 0 <= i < j < |servers| ==> !EqualsIgnoreCase(servers[i].name, servers[j].name)
  }

  /** `GetAllServers`: the host entry, when present, then the user entries in order. */
  function AllServers(st: Store): (r: seq<McpServerConfig>)
    ensures |r| == |st.servers| + (if st.host.Some? then 1 else 0)
    ensures st.host.Some? ==> r[0] == st.host.value
    ensures var d := |r| - |st.servers|;
      forall i :: 0 <= i < |st.servers| ==> r[i + d] == st.servers[i]
  {
    (if st.host.Some? then [st.host.value] else []) + st.servers
  }

  /** `FirstOrDefault(s => s.Name.Equals(name, OrdinalIgnoreCase))`, as an index. */
  function FindByName(servers: seq<McpServerConfig>, name: string): (r: Option<nat>)
    ensures r.None? <==> forall i :: 0 <= i < |servers| ==> !EqualsIgnoreCase(servers[i].name, name)
    ensures r.Some? ==> r.value < |servers| && EqualsIgnoreCase(servers[r.value].name, name)
    ensures r.Some? ==> forall i :: 0 <= i < r.value ==> !EqualsIgnoreCase(servers[i].name, name)
    decreases |servers|
  {
    if servers == [] then None
    else if EqualsIgnoreCase(servers[0].name, name) then Some(0)
    else match FindByName(servers[1..], name)
      case None => None
      case Some(k) => Some(k + 1)
  }

  /** `AddServerAsync`: validate, force `IsHostApp = false`, append. */
  function AddServer(st: Store, server: McpServerConfig): (r: AddResult)
    ensures r.Rejected? && r.error == NameRequired <==> IsBlank(server.name)
    ensures r.Rejected? && r.error == DuplicateName <==>
      !IsBlank(server.name) && exists i :: 0 <= i < |AllServers(st)| && EqualsIgnoreCase(AllServers(st)[i].name, server.name)
    ensures r.Added? ==>
      r.store.host == st.host && r.store.servers == st.servers + [server.(isHostApp := false)]
  {
    if IsBlank(server.name) then Rejected(NameRequired)
    else if FindByName(AllServers(st), server.name).Some? then Rejected(DuplicateName)
    else Added(Store(st.host, st.servers + [server.(isHostApp := false)]))
  }

  /** `RemoveServerAsync`: drop the first user entry whose name matches, unless it is a host-app entry. */
  function RemoveServer(st: Store, name: string): (r: (bool, Store))
    ensures !r.0 ==> r.1 == st
    ensures r.0 <==>
      (exists i :: 0 <= i < |st.servers| && EqualsIgnoreCase(st.servers[i].name, name))
      && !st.servers[FindByName(st.servers, name).value].isHostApp
    ensures r.0 ==> var i := FindByName(st.servers, name).value;
      r.1 == Store(st.host, st.servers[..i] + st.servers[i + 1..])
  {
    match FindByName(st.servers, name)
    case None => (false, st)
    case Some(i) =>
      if st.servers[i].isHostApp then (false, st)
      else (true, Store(st.host, st.servers[..i] + st.servers[i + 1..]))
  }

  /** `SetServerEnabled`: the host entry if its name matches, else the first matching user entry. */
  function SetEnabled(st: Store, name: string, enabled: bool): (r: Store)
    ensures |r.servers| == |st.servers| && r.host.Some? == st.host.Some?
    ensures r.host.Some? ==> r.host.value.name == st.host.value.name
    ensures forall j :: 0 <= j < |st.servers| ==> r.servers[j].name == st.servers[j].name
  {
    if st.host.Some? && EqualsIgnoreCase(st.host.value.name, name) then
      Store(Some(st.host.value.(enabled := enabled)), st.servers)
    else match FindByName(st.servers, name)
      case None => st
      case Some(i) => Store(st.host, st.servers[i := st.servers[i].(enabled := enabled)])
  }

  /** Whether `SetServerEnabled` found an entry (and so raised `ConfigurationChanged`). */
  predicate SetServerEnabledFound(st: Store, name: string) {
    (st.host.Some? && EqualsIgnoreCase(st.host.value.name, name))
    || FindByName(st.servers, name).Some?
  }

  /** The user entries not marked as host-app entries (`Where(s => !s.IsHostApp)`). */
  function UserEntries(servers: seq<McpServerConfig>): (r: seq<McpServerConfig>)
    ensures |r| <= |servers|
    ensures forall i :: 0 <= i < |r| ==> !r[i].isHostApp && r[i] in servers
    ensures (forall i :: 0 <= i < |servers| ==> !servers[i].isHostApp) ==> r == servers
    decreases |servers|
  {
    if servers == [] then []
    else (if servers[0].isHostApp then [] else [servers[0]]) + UserEntries(servers[1..])
  }

  /** `UserEntries` works entry by entry: filtering a concatenation filters each part, keeping the order. */
  lemma {:induction false} UserEntriesAppend(a: seq<McpServerConfig>, b: seq<McpServerConfig>)
    ensures UserEntries(a + b) == UserEntries(a) + UserEntries(b)
    decreases |a|
  {
    if a == [] {
      assert a + b == b;
    } else {
      UserEntriesAppend(a[1..], b);
      UserEntriesAppendStep(a[0], a[1..], b);
      assert [a[0]] + a[1..] == a;
    }
  }

  lemma UserEntriesAppendStep(x: McpServerConfig, t: seq<McpServerConfig>, b: seq<McpServerConfig>)
    requires UserEntries(t + b) == UserEntries(t) + UserEntries(b)
    ensures UserEntries([x] + t + b) == UserEntries([x] + t) + UserEntries(b)
  {
    var h := if x.isHostApp then [] else [x];
    assert UserEntries([x] + t + b) == UserEntries([x] + (t + b)) by {
      AppendAssoc([x], t, b);
    }
    assert UserEntries([x] + (t + b)) == h + UserEntries(t + b) by {
      UserEntriesCons(x, t + b);
    }
    assert UserEntries([x] + t) == h + UserEntries(t) by {
      UserEntriesCons(x, t);
    }
    AppendAssoc(h, UserEntries(t), UserEntries(b));
  }

  lemma UserEntriesCons(x: McpServerConfig, xs: seq<McpServerConfig>)
    ensures UserEntries([x] + xs) == (if x.isHostApp then [] else [x]) + UserEntries(xs)
  {
    assert ([x] + xs)[1..] == xs;
  }

  /** Every entry not marked host-app is kept, as often as it occurs, and no other entry is. */
  lemma {:induction false} UserEntriesExactly(servers: seq<McpServerConfig>)
    ensures forall x :: multiset(UserEntries(servers))[x] == if x.isHostApp then 0 else multiset(servers)[x]
    decreases |servers|
  {
    if servers != [] {
      UserEntriesExactly(servers[1..]);
      assert servers == [servers[0]] + servers[1..];
      assert multiset(servers) == multiset{servers[0]} + multiset(servers[1..]);
    }
  }

  /** `SaveAsync`: the list written to storage under "mcp-servers". */
  function SaveList(st: Store): (r: seq<McpServerConfig>)
    ensures forall i :: 0 <= i < |r| ==> !r[i].isHostApp
  {
    UserEntries(st.servers)
  }

  /** The entry `DetectHostAppServer` builds for an endpoint. */
  function DetectedHostEntry(endpoint: string, running: bool): McpServerConfig {
    McpServerConfig(HostAppName, Http, None, [], [], Some(endpoint), running, true)
  }

  /** `DetectHostAppServer`: (re)builds the host entry whenever an endpoint is advertised. */
  function DetectHostAppServer(st: Store, hs: Option<HostState>): (r: Store)
    ensures r.servers == st.servers
    ensures hs.Some? && HasText(hs.value.httpEndpoint) ==>
      r.host == Some(DetectedHostEntry(hs.value.httpEndpoint.value, hs.value.isRunning))
    ensures !(hs.Some? && HasText(hs.value.httpEndpoint)) ==> r == st
  {
    match hs
    case None => st
    case Some(h) =>
      if HasText(h.httpEndpoint) then
        Store(Some(DetectedHostEntry(h.httpEndpoint.value, h.isRunning)), st.servers)
      else st
  }

  /**
   * `LoadAsync`: host detection, then the stored list minus host-app entries
   * replaces the user list. `stored` is `None` when there is no storage, the
   * read failed, or it returned null; the user list is then kept.
   */
  function Load(st: Store, hs: Option<HostState>, stored: Option<seq<McpServerConfig>>): (r: Store)
    ensures r.host == DetectHostAppServer(st, hs).host
    ensures stored.None? ==> r.servers == st.servers
    ensures stored.Some? ==> r.servers == UserEntries(stored.value)
  {
    var detected := DetectHostAppServer(st, hs);
    if stored.Some? then Store(detected.host, UserEntries(stored.value)) else detected
  }

  /** `OnHostAppMcpStateChanged`: create the host entry once, afterwards only refresh it. */
  function OnHostStateChanged(st: Store, hs: Option<HostState>): (r: Store)
    ensures r.servers == st.servers
    ensures st.host.Some? ==> r.host.Some?
    ensures hs.None? ==> r == st
  {
    match hs
    case None => st
    case Some(h) =>
      if HasText(h.httpEndpoint) && st.host.None? then
        Store(Some(DetectedHostEntry(h.httpEndpoint.value, true)), st.servers)
      else if st.host.Some? then
        var url := if HasText(h.httpEndpoint) then h.httpEndpoint else st.host.value.url;
        Store(Some(st.host.value.(enabled := h.isRunning, url := url)), st.servers)
      else st
  }

  /** Whether the handler raised `ConfigurationChanged`. */
  predicate OnHostStateChangedNotifies(st: Store, hs: Option<HostState>) {
    hs.Some? && (HasText(hs.value.httpEndpoint) || st.host.Some?)
  }

  // ----- the configuration handed to the CLI -----

  function StringOrNull(s: Option<string>): Json {
    match s
    case Some(v) => JString(v)
    case None => JNull
  }

  function StringArray(items: seq<string>): (r: Json)
    ensures r.JArray? && |r.items| == |items|
  {
    JArray(seq(|items|, i requires 0 <= i < |items| => JString(items[i])))
  }

  function StringObject(pairs: seq<(string, string)>): (r: Json)
    ensures r.JObject? && |r.members| == |pairs|
  {
    JObject(seq(|pairs|, i requires 0 <= i < |pairs| => (pairs[i].0, JString(pairs[i].1))))
  }

  /**
   * `BuildServerConfig`. Dictionary values are written even when null (the
   * serializer's ignore-null option applies to object properties, not to
   * dictionary entries), so a missing url or command appears as `null`.
   */
  function BuildServerConfig(s: McpServerConfig): (r: Json)
    ensures r.JObject?
  {
    match s.transport
    case Http => JObject([("type", JString("http")), ("url", StringOrNull(s.url))])
    case Stdio =>
      JObject([("type", JString("stdio")), ("command", StringOrNull(s.command))]
              + (if |s.args| > 0 then [("args", StringArray(s.args))] else [])
              + (if |s.env| > 0 then [("env", StringObject(s.env))] else []))
  }

  /** `Where(s => s.Enabled)`. */
  function EnabledServers(all: seq<McpServerConfig>): (r: seq<McpServerConfig>)
    ensures |r| <= |all|
    ensures forall i :: 0 <= i < |r| ==> r[i].enabled && r[i] in all
    ensures r == [] <==> forall i :: 0 <= i < |all| ==> !all[i].enabled
    decreases |all|
  {
    if all == [] then []
    else (if all[0].enabled then [all[0]] else []) + EnabledServers(all[1..])
  }

  /** `EnabledServers` works entry by entry: filtering a concatenation filters each part, keeping the order. */
  lemma {:induction false} EnabledServersAppend(a: seq<McpServerConfig>, b: seq<McpServerConfig>)
    ensures EnabledServers(a + b) == EnabledServers(a) + EnabledServers(b)
    decreases |a|
  {
    if a == [] {
      assert a + b == b;
    } else {
      EnabledServersAppend(a[1..], b);
      EnabledServersAppendStep(a[0], a[1..], b);
      assert [a[0]] + a[1..] == a;
    }
  }

  lemma EnabledServersAppendStep(x: McpServerConfig, t: seq<McpServerConfig>, b: seq<McpServerConfig>)
    requires EnabledServers(t + b) == EnabledServers(t) + EnabledServers(b)
    ensures EnabledServers([x] + t + b) == EnabledServers([x] + t) + EnabledServers(b)
  {
    var h := if x.enabled then [x] else [];
    assert EnabledServers([x] + t + b) == EnabledServers([x] + (t + b)) by {
      AppendAssoc([x], t, b);
    }
    assert EnabledServers([x] + (t + b)) == h + EnabledServers(t + b) by {
      EnabledServersCons(x, t + b);
    }
    assert EnabledServers([x] + t) == h + EnabledServers(t) by {
      EnabledServersCons(x, t);
    }
    AppendAssoc(h, EnabledServers(t), EnabledServers(b));
  }

  lemma EnabledServersCons(x: McpServerConfig, xs: seq<McpServerConfig>)
    ensures EnabledServers([x] + xs) == (if x.enabled then [x] else []) + EnabledServers(xs)
  {
    assert ([x] + xs)[1..] == xs;
  }

  /** Every enabled entry is kept, as often as it occurs, and no other entry is. */
  lemma {:induction false} EnabledServersExactly(all: seq<McpServerConfig>)
    ensures forall x :: multiset(EnabledServers(all))[x] == if x.enabled then multiset(all)[x] else 0
    decreases |all|
  {
    if all != [] {
      EnabledServersExactly(all[1..]);
      assert all == [all[0]] + all[1..];
      assert multiset(all) == multiset{all[0]} + multiset(all[1..]);
    }
  }

  /** No two entries share a name exactly (what `ToDictionary` demands). */
  predicate DistinctNames(servers: seq<McpServerConfig>) {
    forall i, j :: 0 <= i < j < |servers| ==> servers[i].name != servers[j].name
  }

  function Keys(members: seq<(string, Json)>): (r: seq<string>)
    ensures |r| == |members| && forall i :: 0 <= i < |r| ==> r[i] == members[i].0
  {
    seq(|members|, i requires 0 <= i < |members| => members[i].0)
  }

  function Names(servers: seq<McpServerConfig>): (r: seq<string>)
    ensures |r| == |servers| && forall i :: 0 <= i < |r| ==> r[i] == servers[i].name
  {
    seq(|servers|, i requires 0 <= i < |servers| => servers[i].name)
  }

  /**
   * What `BuildCliConfigJson` gives: null when nothing is enabled, the
   * `ArgumentException` that `ToDictionary` throws when two enabled entries
   * share a name exactly, or the document.
   */
  datatype CliConfig = NoEnabledServers | DuplicateKey | Serialized(json: Json)

  /** `BuildCliConfigJson`: `{"mcpServers": {name: config, ...}}` over the enabled entries of `GetAllServers`. */
  function BuildCliConfigJson(st: Store): (r: CliConfig)
    ensures r.NoEnabledServers? <==> forall i :: 0 <= i < |AllServers(st)| ==> !AllServers(st)[i].enabled
    ensures r.DuplicateKey? <==>
      (exists i :: 0 <= i < |AllServers(st)| && AllServers(st)[i].enabled) && !DistinctNames(EnabledServers(AllServers(st)))
  {
    var enabled := EnabledServers(AllServers(st));
    if enabled == [] then NoEnabledServers
    else if !DistinctNames(enabled) then DuplicateKey
    else Serialized(JObject([("mcpServers", JObject(
      seq(|enabled|, i requires 0 <= i < |enabled| => (enabled[i].name, BuildServerConfig(enabled[i])))))]))
  }

  // ----- reading the configuration back, as the CLI does -----

  /** The transport-specific part of an entry that reaches the CLI. */
  datatype ServerView =
    | StdioView(command: Option<string>, args: seq<string>, env: seq<(string, string)>)
    | HttpView(url: Option<string>)

  function ViewOf(s: McpServerConfig): ServerView {
    match s.transport
    case Stdio => StdioView(s.command, s.args, s.env)
    case Http => HttpView(s.url)
  }

  /** The value of the first member named `key`. */
  function Lookup(members: seq<(string, Json)>, key: string): Option<Json>
    decreases |members|
  {
    if members == [] then None
    else if members[0].0 == key then Some(members[0].1)
    else Lookup(members[1..], key)
  }

  function ReadStringOrNull(j: Json): Option<Option<string>> {
    match j
    case JNull => Some(None)
    case JString(v) => Some(Some(v))
    case _ => None
  }

  function ReadStrings(items: seq<Json>): Option<seq<string>>
    decreases |items|
  {
    if items == [] then Some([])
    else if !items[0].JString? then None
    else match ReadStrings(items[1..])
      case None => None
      case Some(rest) => Some([items[0].str] + rest)
  }

  function ReadPairs(members: seq<(string, Json)>): Option<seq<(string, string)>>
    decreases |members|
  {
    if members == [] then Some([])
    else if !members[0].1.JString? then None
    else match ReadPairs(members[1..])
      case None => None
      case Some(rest) => Some([(members[0].0, members[0].1.str)] + rest)
  }

  /** How a consumer of the configuration file reads one server object. */
  function ReadServer(j: Json): Option<ServerView> {
    if !j.JObject? then None
    else
      var m := j.members;
      match Lookup(m, "type")
      case Some(JString(t)) =>
        if t == "http" then
          match Lookup(m, "url")
          case None => None
          case Some(u) =>
            match ReadStringOrNull(u)
            case None => None
            case Some(url) => Some(HttpView(url))
        else if t == "stdio" then
          match Lookup(m, "command")
          case None => None
          case Some(c) =>
            match ReadStringOrNull(c)
            case None => None
            case Some(command) =>
              var args, env := ReadArgs(m), ReadEnv(m);
              if args.None? || env.None? then None
              else Some(StdioView(command, args.value, env.value))
        else None
      case _ => None
  }

  /** An absent "args" member reads as no arguments; otherwise it must be an array of strings. */
  function ReadArgs(m: seq<(string, Json)>): Option<seq<string>> {
    match Lookup(m, "args")
    case None => Some([])
    case Some(JArray(items)) => ReadStrings(items)
    case Some(_) => None
  }

  /** An absent "env" member reads as no variables; otherwise it must be an object of strings. */
  function ReadEnv(m: seq<(string, Json)>): Option<seq<(string, string)>> {
    match Lookup(m, "env")
    case None => Some([])
    case Some(JObject(ps)) => ReadPairs(ps)
    case Some(_) => None
  }

  lemma {:induction false} ReadStringsOfArray(items: seq<string>)
    ensures ReadStrings(StringArray(items).items) == Some(items)
    decreases |items|
  {
    var x := StringArray(items).items;
    if items == [] {
      assert x == [];
    } else {
      ReadStringsOfArray(items[1..]);
      assert x[0] == JString(items[0]);
      assert x[1..] == StringArray(items[1..]).items;
      assert items == [items[0]] + items[1..];
    }
  }

  lemma {:induction false} ReadPairsOfObject(pairs: seq<(string, string)>)
    ensures ReadPairs(StringObject(pairs).members) == Some(pairs)
    decreases |pairs|
  {
    var x := StringObject(pairs).members;
    if pairs == [] {
      assert x == [];
    } else {
      ReadPairsOfObject(pairs[1..]);
      assert x[0] == (pairs[0].0, JString(pairs[0].1));
      assert x[1..] == StringObject(pairs[1..]).members;
      assert pairs == [(pairs[0].0, pairs[0].1)] + pairs[1..];
    }
  }

  /**
   * The per-server object keeps everything the CLI needs: reading it back
   * gives the transport, command or url, the args in order and the env pairs;
   * "args"/"env" are present exactly when non-empty.
   */
  lemma ServerConfigRoundTrip(s: McpServerConfig)
    ensures ReadServer(BuildServerConfig(s)) == Some(ViewOf(s))
    ensures var m := BuildServerConfig(s).members;
      (Lookup(m, "args").Some? <==> s.transport == Stdio && |s.args| > 0)
      && (Lookup(m, "env").Some? <==> s.transport == Stdio && |s.env| > 0)
  {
    var m := BuildServerConfig(s).members;
    match s.transport
    case Http =>
      LookupAt(m, "type", 0);
      LookupAt(m, "url", 1);
      LookupAbsent(m, "args");
      LookupAbsent(m, "env");
    case Stdio =>
      StdioConfigRoundTrip(s);
  }

  lemma StdioConfigRoundTrip(s: McpServerConfig)
    requires s.transport == Stdio
    ensures ReadServer(BuildServerConfig(s)) == Some(ViewOf(s))
    ensures var m := BuildServerConfig(s).members;
      (Lookup(m, "args").Some? <==> |s.args| > 0) && (Lookup(m, "env").Some? <==> |s.env| > 0)
  {
    var m := BuildServerConfig(s).members;
    assert Lookup(m, "type") == Some(JString("stdio")) by { LookupAt(m, "type", 0); }
    assert Lookup(m, "command") == Some(StringOrNull(s.command)) by { LookupAt(m, "command", 1); }
    StdioArgsRead(s);
    StdioEnvRead(s);
  }

  lemma StdioArgsRead(s: McpServerConfig)
    requires s.transport == Stdio
    ensures var m := BuildServerConfig(s).members;
      ReadArgs(m) == Some(s.args) && (Lookup(m, "args").Some? <==> |s.args| > 0)
  {
    var m := BuildServerConfig(s).members;
    ReadStringsOfArray(s.args);
    if |s.args| > 0 {
      LookupAt(m, "args", 2);
    } else {
      LookupAbsent(m, "args");
    }
  }

  lemma StdioEnvRead(s: McpServerConfig)
    requires s.transport == Stdio
    ensures var m := BuildServerConfig(s).members;
      ReadEnv(m) == Some(s.env) && (Lookup(m, "env").Some? <==> |s.env| > 0)
  {
    var m := BuildServerConfig(s).members;
    ReadPairsOfObject(s.env);
    if |s.env| > 0 {
      LookupAt(m, "env", |m| - 1);
    } else {
      LookupAbsent(m, "env");
    }
  }

  lemma {:induction false} LookupAt(m: seq<(string, Json)>, key: string, k: nat)
    requires k < |m| && m[k].0 == key
    requires forall i :: 0 <= i < k ==> m[i].0 != key
    ensures Lookup(m, key) == Some(m[k].1)
    decreases k
  {
    if k > 0 {
      LookupAt(m[1..], key, k - 1);
    }
  }

  lemma {:induction false} LookupAbsent(m: seq<(string, Json)>, key: string)
    requires forall i :: 0 <= i < |m| ==> m[i].0 != key
    ensures Lookup(m, key) == None
    decreases |m|
  {
    if m != [] {
      LookupAbsent(m[1..], key);
    }
  }

  /** How a consumer reads the whole document: the server objects under "mcpServers", in order. */
  function ReadConfig(j: Json): Option<seq<(string, ServerView)>> {
    if !j.JObject? then None
    else match Lookup(j.members, "mcpServers")
      case Some(JObject(ms)) => ReadServers(ms)
      case _ => None
  }

  function ReadServers(ms: seq<(string, Json)>): Option<seq<(string, ServerView)>>
    decreases |ms|
  {
    if ms == [] then Some([])
    else match ReadServer(ms[0].1)
      case None => None
      case Some(v) =>
        match ReadServers(ms[1..])
        case None => None
        case Some(rest) => Some([(ms[0].0, v)] + rest)
  }

  function ViewsOf(servers: seq<McpServerConfig>): (r: seq<(string, ServerView)>)
    ensures |r| == |servers|
  {
    seq(|servers|, i requires 0 <= i < |servers| => (servers[i].name, ViewOf(servers[i])))
  }

  lemma {:induction false} ReadServersOfEntries(en: seq<McpServerConfig>)
    ensures ReadServers(seq(|en|, i requires 0 <= i < |en| => (en[i].name, BuildServerConfig(en[i]))))
      == Some(ViewsOf(en))
    decreases |en|
  {
    var ms := seq(|en|, i requires 0 <= i < |en| => (en[i].name, BuildServerConfig(en[i])));
    if en != [] {
      ServerConfigRoundTrip(en[0]);
      ReadServersOfEntries(en[1..]);
      assert ms[1..] == seq(|en[1..]|, i requires 0 <= i < |en[1..]| => (en[1..][i].name, BuildServerConfig(en[1..][i])));
      assert ViewsOf(en) == [(en[0].name, ViewOf(en[0]))] + ViewsOf(en[1..]);
    }
  }

  /**
   * The configuration lists exactly the enabled entries of `GetAllServers`,
   * host entry first, under their own names, each readable back to its
   * transport settings.
   */
  lemma ConfigListsEnabledServers(st: Store)
    requires BuildCliConfigJson(st).Serialized?
    ensures var en := EnabledServers(AllServers(st));
      var j := BuildCliConfigJson(st).json;
      && Lookup(j.members, "mcpServers").Some?
      && Keys(Lookup(j.members, "mcpServers").value.members) == Names(en)
      && ReadConfig(j) == Some(ViewsOf(en))
  {
    var en := EnabledServers(AllServers(st));
    var ms := seq(|en|, i requires 0 <= i < |en| => (en[i].name, BuildServerConfig(en[i])));
    var j := JObject([("mcpServers", JObject(ms))]);
    assert BuildCliConfigJson(st) == Serialized(j);
    assert Lookup(j.members, "mcpServers") == Some(JObject(ms));
    assert Keys(ms) == Names(en);
    assert ReadConfig(j) == Some(ViewsOf(en)) by {
      assert ReadConfig(j) == ReadServers(ms);
      ReadServersOfEntries(en);
    }
  }

  /** Case-insensitive uniqueness is stronger than the exact-name distinctness the builder needs. */
  lemma UniqueNamesGiveDistinctEnabled(st: Store)
    requires UniqueNames(st)
    ensures DistinctNames(EnabledServers(AllServers(st)))
    ensures !BuildCliConfigJson(st).DuplicateKey?
  {
    FilterKeepsDistinct(AllServers(st));
  }

  /**
   * Without a host entry, a user entry may be called `host-app`: the duplicate
   * check of `AddServerAsync` sees only the entries present. The host entry
   * created later by the state handler, or by detection at load, then has the
   * same name, and `BuildCliConfigJson` throws.
   */
  lemma UserHostAppEntryBreaksConfig(user: McpServerConfig, endpoint: string)
    requires user.name == HostAppName && user.enabled && HasText(Some(endpoint))
    ensures var added := AddServer(Store(None, []), user);
      && added.Added?
      && BuildCliConfigJson(added.store).Serialized?
      && BuildCliConfigJson(OnHostStateChanged(added.store, Some(HostState(Some(endpoint), false)))) == DuplicateKey
      && BuildCliConfigJson(Load(added.store, Some(HostState(Some(endpoint), true)), None)) == DuplicateKey
  {
    var u := user.(isHostApp := false);
    var st := Store(None, [u]);
    assert AddServer(Store(None, []), user) == Added(st) by {
      HostAppNameHasText();
      assert AllServers(Store(None, [])) == [];
    }
    assert BuildCliConfigJson(st).Serialized? by {
      assert AllServers(st) == [u];
      assert EnabledServers([u]) == [u];
    }
    var h := DetectedHostEntry(endpoint, true);
    assert OnHostStateChanged(st, Some(HostState(Some(endpoint), false))) == Store(Some(h), [u]);
    assert Load(st, Some(HostState(Some(endpoint), true)), None) == Store(Some(h), [u]);
    SameNameThrows(h, u);
  }

  lemma HostAppNameHasText()
    ensures !IsBlank(HostAppName)
  {
    assert HostAppName[0] == 'h';
  }

  /** Two enabled entries with the same name make `ToDictionary` throw. */
  lemma SameNameThrows(h: McpServerConfig, u: McpServerConfig)
    requires h.name == u.name && h.enabled && u.enabled
    ensures BuildCliConfigJson(Store(Some(h), [u])) == DuplicateKey
  {
    var all := AllServers(Store(Some(h), [u]));
    assert all == [h, u];
    assert EnabledServers(all) == [h, u] by {
      assert all[1..] == [u];
      assert EnabledServers([u]) == [u];
    }
    assert all[0].enabled;
  }

  lemma {:induction false} FilterKeepsDistinct(all: seq<McpServerConfig>)
    requires forall i, j :: 0 <= i < j < |all| ==> !EqualsIgnoreCase(all[i].name, all[j].name)
    ensures DistinctNames(EnabledServers(all))
    decreases |all|
  {
    if all != [] {
      FilterKeepsDistinct(all[1..]);
      var rest := EnabledServers(all[1..]);
      if all[0].enabled {
        var r := EnabledServers(all);
        assert r == [all[0]] + rest;
        forall j | 0 < j < |r| ensures r[0].name != r[j].name {
          assert r[j] == rest[j - 1] && rest[j - 1] in all[1..];
          var k :| 0 <= k < |all[1..]| && all[1..][k] == rest[j - 1];
          assert !EqualsIgnoreCase(all[0].name, all[k + 1].name);
          EqualsIgnoreCaseRefl(all[0].name);
        }
      }
    }
  }

  // ----- properties of the store operations -----

  /** Adding never introduces a case-insensitive name clash. */
  lemma AddPreservesUniqueNames(st: Store, server: McpServerConfig)
    requires UniqueNames(st)
    requires AddServer(st, server).Added?
    ensures UniqueNames(AddServer(st, server).store)
  {
    var st' := AddServer(st, server).store;
    var all, all' := AllServers(st), AllServers(st');
    assert all' == all + [server.(isHostApp := false)];
    forall i, j | 0 <= i < j < |all'| ensures !EqualsIgnoreCase(all'[i].name, all'[j].name) {
      if j == |all| {
        assert all'[i] == all[i];
        assert !EqualsIgnoreCase(all[i].name, server.name);
      }
    }
  }

  /** Adding keeps the store's shape: no host-app entry enters the user list. */
  lemma AddPreservesValid(st: Store, server: McpServerConfig)
    requires Valid(st)
    requires AddServer(st, server).Added?
    ensures Valid(AddServer(st, server).store)
  {
  }

  /** A successful add followed by removing the same name restores the store exactly. */
  lemma AddThenRemove(st: Store, server: McpServerConfig)
    requires AddServer(st, server).Added?
    ensures RemoveServer(AddServer(st, server).store, server.name) == (true, st)
  {
    var added := server.(isHostApp := false);
    var st' := AddServer(st, server).store;
    var n := |st.servers|;
    assert st'.servers == st.servers + [added] && st'.host == st.host;
    assert FindByName(st'.servers, server.name) == Some(n) by {
      forall i | 0 <= i < n ensures !EqualsIgnoreCase(st.servers[i].name, server.name) {
        var d := |AllServers(st)| - n;
        assert AllServers(st)[i + d] == st.servers[i];
      }
      EqualsIgnoreCaseRefl(server.name);
      FindByNameAfter(st.servers, added, server.name);
    }
    assert st'.servers[n] == added && !added.isHostApp;
    assert st'.servers[..n] + st'.servers[n + 1..] == st.servers by {
      assert st'.servers[..n] == st.servers;
    }
  }

  lemma {:induction false} FindByNameAfter(servers: seq<McpServerConfig>, s: McpServerConfig, name: string)
    requires forall i :: 0 <= i < |servers| ==> !EqualsIgnoreCase(servers[i].name, name)
    requires EqualsIgnoreCase(s.name, name)
    ensures FindByName(servers + [s], name) == Some(|servers|)
  {
    var xs := servers + [s];
    assert forall i :: 0 <= i < |servers| ==> xs[i] == servers[i];
    assert xs[|servers|] == s;
  }

  /** ...and so the configuration handed to the CLI is the same as before the add. */
  lemma AddThenRemoveConfig(st: Store, server: McpServerConfig)
    requires AddServer(st, server).Added?
    ensures var st' := RemoveServer(AddServer(st, server).store, server.name).1;
      && (DistinctNames(EnabledServers(AllServers(st'))) <==> DistinctNames(EnabledServers(AllServers(st))))
      && BuildCliConfigJson(st') == BuildCliConfigJson(st)
  {
    AddThenRemove(st, server);
  }

  /**
   * In a valid store with unique names, removing by the host entry's name
   * (in any letter case) is refused and changes nothing.
   */
  lemma {:induction false} RemoveHostAppRefused(st: Store, name: string)
    requires Valid(st) && UniqueNames(st)
    requires st.host.Some? && EqualsIgnoreCase(st.host.value.name, name)
    ensures RemoveServer(st, name) == (false, st)
  {
    var h := st.host.value;
    assert AllServers(st) == [h] + st.servers;
    NamesUniqueHead(h, st.servers);
    forall i | 0 <= i < |st.servers| ensures !EqualsIgnoreCase(st.servers[i].name, name) {
      DifferentFromSameName(h.name, st.servers[i].name, name);
    }
    assert FindByName(st.servers, name).None?;
  }

  /** A name that differs (up to case) from `a` differs from every name equal to `a`. */
  lemma DifferentFromSameName(a: string, b: string, c: string)
    requires EqualsIgnoreCase(a, c) && !EqualsIgnoreCase(a, b)
    ensures !EqualsIgnoreCase(b, c)
  {
    EqualsIgnoreCaseIsFold(a, c);
    EqualsIgnoreCaseIsFold(a, b);
    EqualsIgnoreCaseIsFold(b, c);
  }

  /** In a valid store a remove succeeds exactly when some user entry carries the name. */
  lemma RemoveSucceedsIffUserMatch(st: Store, name: string)
    requires Valid(st)
    ensures RemoveServer(st, name).0 <==>
      exists i :: 0 <= i < |st.servers| && EqualsIgnoreCase(st.servers[i].name, name)
    ensures RemoveServer(st, name).0 ==>
      |RemoveServer(st, name).1.servers| == |st.servers| - 1
  {
  }

  /** Removing keeps the store's shape; a refused removal leaves the store as it was. */
  lemma RemovePreservesValid(st: Store, name: string)
    requires Valid(st)
    ensures Valid(RemoveServer(st, name).1)
    ensures !RemoveServer(st, name).0 ==> RemoveServer(st, name).1 == st
  {
    if RemoveServer(st, name).0 {
      var i := FindByName(st.servers, name).value;
      var rest := st.servers[..i] + st.servers[i + 1..];
      forall k | 0 <= k < |rest| ensures !rest[k].isHostApp {
        assert rest[k] == if k < i then st.servers[k] else st.servers[k + 1];
      }
    }
  }

  /** Removing never introduces a case-insensitive name clash. */
  lemma RemovePreservesUniqueNames(st: Store, name: string)
    requires UniqueNames(st)
    ensures UniqueNames(RemoveServer(st, name).1)
  {
    if RemoveServer(st, name).0 {
      UniqueAfterDrop(st, FindByName(st.servers, name).value);
    }
  }

  /** Dropping one user entry keeps the full list's names distinct. */
  lemma UniqueAfterDrop(st: Store, i: nat)
    requires UniqueNames(st) && i < |st.servers|
    ensures UniqueNames(Store(st.host, st.servers[..i] + st.servers[i + 1..]))
  {
    var rest := st.servers[..i] + st.servers[i + 1..];
    if st.host.Some? {
      var h := st.host.value;
      var all := [h] + st.servers;
      assert NamesUnique(all) by {
        assert AllServers(st) == all;
      }
      assert NamesUnique([h] + rest) by {
        DropAfterHead(h, st.servers, i);
        NamesUniqueRemove(all, i + 1);
      }
      assert AllServers(Store(st.host, rest)) == [h] + rest;
    } else {
      assert NamesUnique(st.servers) by {
        assert AllServers(st) == st.servers;
      }
      NamesUniqueRemove(st.servers, i);
      assert AllServers(Store(st.host, rest)) == rest;
    }
  }

  /** Dropping entry `i` after a head is dropping entry `i + 1` of the whole list. */
  lemma DropAfterHead<T>(h: T, xs: seq<T>, i: nat)
    requires i < |xs|
    ensures [h] + (xs[..i] + xs[i + 1..]) == ([h] + xs)[..i + 1] + ([h] + xs)[i + 2..]
  {
    assert ([h] + xs)[..i + 1] == [h] + xs[..i];
    assert ([h] + xs)[i + 2..] == xs[i + 1..];
  }

  /** Dropping one entry of a list with distinct names keeps the names distinct. */
  lemma NamesUniqueRemove(servers: seq<McpServerConfig>, k: nat)
    requires NamesUnique(servers) && k < |servers|
    ensures NamesUnique(servers[..k] + servers[k + 1..])
  {
    var r := servers[..k] + servers[k + 1..];
    forall i, j | 0 <= i < j < |r| ensures !EqualsIgnoreCase(r[i].name, r[j].name) {
      var i', j' := if i < k then i else i + 1, if j < k then j else j + 1;
      assert r[i] == servers[i'] && r[j] == servers[j'];
    }
  }

  /** Removing keeps the other entries in their order, drops one and keeps the host entry. */
  lemma {:induction false} RemoveKeepsOthers(st: Store, name: string)
    requires RemoveServer(st, name).0
    ensures var st' := RemoveServer(st, name).1; var i := FindByName(st.servers, name).value;
      && st'.host == st.host
      && multiset(st'.servers) + multiset{st.servers[i]} == multiset(st.servers)
      && (forall k :: 0 <= k < i ==> st'.servers[k] == st.servers[k])
      && (forall k :: i <= k < |st'.servers| ==> st'.servers[k] == st.servers[k + 1])
  {
    DropOne(st.servers, FindByName(st.servers, name).value);
  }

  /** Dropping entry `i` keeps every other entry, in order. */
  lemma DropOne<T>(xs: seq<T>, i: nat)
    requires i < |xs|
    ensures var r := xs[..i] + xs[i + 1..];
      && multiset(r) + multiset{xs[i]} == multiset(xs)
      && (forall k :: 0 <= k < i ==> r[k] == xs[k])
      && (forall k :: i <= k < |r| ==> r[k] == xs[k + 1])
  {
    assert xs == xs[..i] + [xs[i]] + xs[i + 1..];
  }

  /**
   * `SetServerEnabled` sets the enabled flag of the first entry of
   * `GetAllServers` whose name matches (host entry first) and changes nothing
   * else; with no match the store is unchanged.
   */
  lemma {:induction false} SetServerEnabledOnlyFlag(st: Store, name: string, enabled: bool)
    ensures var all, all' := AllServers(st), AllServers(SetEnabled(st, name, enabled));
      var k := FindByName(all, name);
      (k.None? ==> all' == all)
      && (k.Some? ==> all' == all[k.value := all[k.value].(enabled := enabled)])
    ensures SetServerEnabledFound(st, name) <==> FindByName(AllServers(st), name).Some?
  {
    var st' := SetEnabled(st, name, enabled);
    var all, all' := AllServers(st), AllServers(st');
    if st.host.Some? {
      var h := st.host.value;
      assert all == [h] + st.servers;
      FindByNameCons(h, st.servers, name);
      if EqualsIgnoreCase(h.name, name) {
        assert all' == [h.(enabled := enabled)] + st.servers;
      } else {
        match FindByName(st.servers, name)
        case None =>
        case Some(i) =>
          assert all' == [h] + st.servers[i := st.servers[i].(enabled := enabled)];
      }
    } else {
      assert all == st.servers;
    }
  }

  lemma FindByNameCons(h: McpServerConfig, servers: seq<McpServerConfig>, name: string)
    ensures FindByName([h] + servers, name) ==
      if EqualsIgnoreCase(h.name, name) then Some(0)
      else match FindByName(servers, name) case None => None case Some(k) => Some(k + 1)
  {
    assert ([h] + servers)[1..] == servers;
  }

  /** Host-app marks never change, so `SetServerEnabled` keeps the store valid. */
  lemma SetServerEnabledKeepsValid(st: Store, name: string, enabled: bool)
    requires Valid(st)
    ensures Valid(SetEnabled(st, name, enabled))
  {
  }

  /** Names never change, so `SetServerEnabled` keeps names unique. */
  lemma SetServerEnabledKeepsUnique(st: Store, name: string, enabled: bool)
    requires UniqueNames(st)
    ensures UniqueNames(SetEnabled(st, name, enabled))
  {
    var all, all' := AllServers(st), AllServers(SetEnabled(st, name, enabled));
    SetEnabledKeepsNames(st, name, enabled);
    forall i, j | 0 <= i < j < |all'| ensures !EqualsIgnoreCase(all'[i].name, all'[j].name) {
      assert all'[i].name == all[i].name && all'[j].name == all[j].name;
    }
  }

  lemma SetEnabledKeepsNames(st: Store, name: string, enabled: bool)
    ensures var all, all' := AllServers(st), AllServers(SetEnabled(st, name, enabled));
      |all'| == |all| && forall i :: 0 <= i < |all| ==> all'[i].name == all[i].name
  {
    var st' := SetEnabled(st, name, enabled);
    var all, all' := AllServers(st), AllServers(st');
    forall k | 0 <= k < |all| ensures all'[k].name == all[k].name {
      var d := |all| - |st.servers|;
      if k >= d {
        assert all[k] == st.servers[k - d] && all'[k] == st'.servers[k - d];
      }
    }
  }

  /** Enabling a known entry makes the configuration non-null. */
  lemma EnableMakesConfig(st: Store, name: string)
    requires SetServerEnabledFound(st, name)
    ensures var st' := SetEnabled(st, name, true);
      exists i :: 0 <= i < |AllServers(st')| && AllServers(st')[i].enabled
    ensures !BuildCliConfigJson(SetEnabled(st, name, true)).NoEnabledServers?
  {
    SetServerEnabledOnlyFlag(st, name, true);
    var k := FindByName(AllServers(st), name).value;
    assert AllServers(SetEnabled(st, name, true))[k].enabled;
  }

  /** Saving then loading gives back the same user list (host-app entries are never stored). */
  lemma SaveLoadRoundTrip(st: Store, hs: Option<HostState>)
    requires Valid(st)
    ensures Load(st, hs, Some(SaveList(st))).servers == st.servers
  {
  }

  /** Loading and host-state changes keep the store valid. */
  lemma LoadPreservesValid(st: Store, hs: Option<HostState>, stored: Option<seq<McpServerConfig>>)
    requires Valid(st)
    ensures Valid(Load(st, hs, stored))
    ensures Valid(OnHostStateChanged(st, hs))
  {
  }

  /**
   * Whenever the host advertises an endpoint, the handler leaves a host
   * entry whose url is that endpoint; it never clears the host entry.
   */
  lemma HostEntryFollowsEndpoint(st: Store, hs: Option<HostState>)
    requires hs.Some? && HasText(hs.value.httpEndpoint)
    ensures var r := OnHostStateChanged(st, hs);
      r.host.Some? && r.host.value.url == hs.value.httpEndpoint
      && (st.host.Some? ==> r.host.value.enabled == hs.value.isRunning)
  {
  }

  /** Once a host entry exists, handling the same state twice equals handling it once. */
  lemma HostStateChangeIdempotent(st: Store, hs: Option<HostState>)
    requires st.host.Some?
    ensures OnHostStateChanged(OnHostStateChanged(st, hs), hs) == OnHostStateChanged(st, hs)
  {
  }

  /**
   * The first notification creates the host entry enabled even when the
   * host reports it is not running; the next identical notification then
   * disables it. Detection during `LoadAsync` uses the running flag instead.
   */
  lemma HostEntryCreatedEnabled(endpoint: string)
    requires endpoint != []
    ensures var st, hs := Store(None, []), Some(HostState(Some(endpoint), false));
      var once := OnHostStateChanged(st, hs);
      once.host.Some? && once.host.value.enabled
      && OnHostStateChanged(once, hs).host.Some? && !OnHostStateChanged(once, hs).host.value.enabled
      && DetectHostAppServer(st, hs).host.Some? && !DetectHostAppServer(st, hs).host.value.enabled
  {
  }

  /** The host entry keeps names unique as long as no user entry is already called "host-app". */
  lemma HostStateChangeKeepsUnique(st: Store, hs: Option<HostState>)
    requires UniqueNames(st) && Valid(st)
    requires forall i :: 0 <= i < |st.servers| ==> !EqualsIgnoreCase(st.servers[i].name, HostAppName)
    ensures UniqueNames(OnHostStateChanged(st, hs))
  {
    var st' := OnHostStateChanged(st, hs);
    if st'.host.Some? {
      UniqueWithHost(st'.host.value, st.servers);
      if st.host.Some? {
        UniqueUserPart(st);
      }
    }
  }

  /** The user part of a store with unique names has unique names. */
  lemma UniqueUserPart(st: Store)
    requires UniqueNames(st) && st.host.Some?
    ensures NamesUnique(st.servers)
  {
    assert AllServers(st) == [st.host.value] + st.servers;
    NamesUniqueHead(st.host.value, st.servers);
  }

  /** The first entry of a list with unique names clashes with none of the rest, and the rest are unique. */
  lemma NamesUniqueHead(h: McpServerConfig, servers: seq<McpServerConfig>)
    requires NamesUnique([h] + servers)
    ensures forall i :: 0 <= i < |servers| ==> !EqualsIgnoreCase(h.name, servers[i].name)
    ensures NamesUnique(servers)
  {
    var all := [h] + servers;
    forall i | 0 <= i < |servers| ensures !EqualsIgnoreCase(h.name, servers[i].name) {
      assert all[0] == h && all[i + 1] == servers[i];
    }
    forall i, j | 0 <= i < j < |servers| ensures !EqualsIgnoreCase(servers[i].name, servers[j].name) {
      assert all[i + 1] == servers[i] && all[j + 1] == servers[j];
    }
  }

  lemma UniqueWithHost(h: McpServerConfig, servers: seq<McpServerConfig>)
    requires h.name == HostAppName
    requires forall i :: 0 <= i < |servers| ==> !EqualsIgnoreCase(servers[i].name, HostAppName)
    requires NamesUnique(servers)
    ensures UniqueNames(Store(Some(h), servers))
  {
    assert AllServers(Store(Some(h), servers)) == [h] + servers;
    NamesUniqueCons(h, servers);
  }

  lemma NamesUniqueCons(h: McpServerConfig, servers: seq<McpServerConfig>)
    requires NamesUnique(servers)
    requires forall i :: 0 <= i < |servers| ==> !EqualsIgnoreCase(servers[i].name, h.name)
    ensures NamesUnique([h] + servers)
  {
    var all := [h] + servers;
    forall i, j | 0 <= i < j < |all| ensures !EqualsIgnoreCase(all[i].name, all[j].name) {
      assert all[j] == servers[j - 1];
      if i == 0 {
        EqualsIgnoreCaseSym(servers[j - 1].name, h.name);
      } else {
        assert all[i] == servers[i - 1];
      }
    }
  }

  /**
   * The service object: `HostAppServer`, `_servers`, and a count of the
   * `ConfigurationChanged` notifications raised so far. The CLI
   * registration that `AddServerAsync`/`RemoveServerAsync` attempt never
   * changes these fields and is not part of this class.
   */
  class McpConfigService {
    var hostAppServer: Option<McpServerConfig>
    var servers: seq<McpServerConfig>
    var notifications: nat

    function State(): Store
      reads this
    {
      Store(hostAppServer, servers)
    }

    constructor ()
      ensures State() == Store(None, []) && notifications == 0
    {
      hostAppServer := None;
      servers := [];
      notifications := 0;
    }

    /** `LoadAsync`: always notifies once. */
    method LoadAsync(hs: Option<HostState>, stored: Option<seq<McpServerConfig>>)
      modifies this
      ensures State() == Load(old(State()), hs, stored)
      ensures notifications == old(notifications) + 1
    {
      if hs.Some? && HasText(hs.value.httpEndpoint) {
        hostAppServer := Some(DetectedHostEntry(hs.value.httpEndpoint.value, hs.value.isRunning));
      }
      if stored.Some? {
        servers := UserEntries(stored.value);
      }
      notifications := notifications + 1;
    }

    /** `SaveAsync`: the list handed to storage, or nothing when there is no storage. */
    method SaveAsync(hasStorage: bool) returns (written: Option<seq<McpServerConfig>>)
      ensures written == if hasStorage then Some(SaveList(State())) else None
    {
      if !hasStorage {
        return None;
      }
      written := Some(UserEntries(servers));
    }

    /** `AddServerAsync`: `error` is the exception thrown, if any; on success one entry is appended. */
    method AddServerAsync(server: McpServerConfig) returns (error: Option<AddError>)
      modifies this
      ensures AddServer(old(State()), server).Rejected? ==>
        error == Some(AddServer(old(State()), server).error)
        && State() == old(State()) && notifications == old(notifications)
      ensures AddServer(old(State()), server).Added? ==>
        error == None && State() == AddServer(old(State()), server).store
        && notifications == old(notifications) + 1
    {
      if IsBlank(server.name) {
        return Some(NameRequired);
      }
      if FindByName(AllServers(State()), server.name).Some? {
        return Some(DuplicateName);
      }
      var added := server.(isHostApp := false);
      servers := servers + [added];
      notifications := notifications + 1;
      error := None;
    }

    /** `RemoveServerAsync`. */
    method RemoveServerAsync(name: string) returns (removed: bool)
      modifies this
      ensures (removed, State()) == RemoveServer(old(State()), name)
      ensures notifications == old(notifications) + (if removed then 1 else 0)
    {
      var found := FindByName(servers, name);
      if found.None? {
        return false;
      }
      var i := found.value;
      if servers[i].isHostApp {
        return false;
      }
      servers := servers[..i] + servers[i + 1..];
      notifications := notifications + 1;
      removed := true;
    }

    /** `SetServerEnabled`. */
    method SetServerEnabled(name: string, enabled: bool)
      modifies this
      ensures State() == SetEnabled(old(State()), name, enabled)
      ensures notifications == old(notifications) + (if SetServerEnabledFound(old(State()), name) then 1 else 0)
    {
      if hostAppServer.Some? && EqualsIgnoreCase(hostAppServer.value.name, name) {
        hostAppServer := Some(hostAppServer.value.(enabled := enabled));
        notifications := notifications + 1;
        return;
      }
      var found := FindByName(servers, name);
      if found.Some? {
        var i := found.value;
        servers := servers[i := servers[i].(enabled := enabled)];
        notifications := notifications + 1;
      }
    }

    /** `OnHostAppMcpStateChanged`; `hs` is `None` when the host exposes no MCP state. */
    method OnHostAppMcpStateChanged(hs: Option<HostState>)
      modifies this
      ensures State() == OnHostStateChanged(old(State()), hs)
      ensures notifications == old(notifications) + (if OnHostStateChangedNotifies(old(State()), hs) then 1 else 0)
    {
      if hs.None? {
        return;
      }
      var endpoint := hs.value.httpEndpoint;
      if HasText(endpoint) && hostAppServer.None? {
        hostAppServer := Some(DetectedHostEntry(endpoint.value, true));
        notifications := notifications + 1;
      } else if hostAppServer.Some? {
        var entry := hostAppServer.value.(enabled := hs.value.isRunning);
        if HasText(endpoint) {
          entry := entry.(url := endpoint);
        }
        hostAppServer := Some(entry);
        notifications := notifications + 1;
      }
    }
  }
}
