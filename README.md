# Agent plugin MCP bookkeeping and Claude CLI handling, in Dafny

This project models the logic core of the Mythetech Agent plugin and of the plugin registry tool:

- **McpServerConfig** (`Models`): the MCP server record with its defaults and its two transports.
- **McpConfigService** (`McpConfig`): the table of MCP servers, which is an optional host-application entry plus an ordered list of user entries. The model covers adding, removing, enabling, loading and saving entries, reacting to host-state changes, and building the `{"mcpServers": {...}}` configuration for the CLI. The class `McpConfigService` holds `host` and `servers` fields. Each of its methods is proved to move its state exactly as a pure specification function does. The lemmas prove uniqueness, round trips and "nothing else changes" about those functions.
- **ClaudeMcpManager** (`McpManager`): the argument vectors of `claude mcp add` and `claude mcp remove`, and how the output of `claude mcp list` is parsed into names. `BuildAddArgs` and `ParseServerList` are the source's append loops. They are proved equal to the specification functions. A listing round trip is proved: rendering names and parsing them back gives the same names.
- **ClaudeCliService** (`CliService`, `CommandLine`): the single command-line string passed to `claude --print`, the character-by-character output stream with its trailing error marker, and the process and cancellation-token fields. `CommandLine` models how the .NET runtime splits a command-line string into arguments, so that the quoting can be checked end to end.
- **ClaudeCliDetector** (`CliDetector`): the per-platform candidate list, the first-existing-candidate search, the PATH-lookup fallback and its first-line parse, the version rule, and the two caches of the detector class.
- **PluginRegistryGenerator** (`RegistryGenerator`): how a plugin's short name, package name, zip name and download URI are derived from its id, the choice between build configurations, the loop over plugin directories, sorting by id, the search for the solution root, and the top-level early exits.

`Text` holds the string operations the C# code takes from .NET: `Trim` over the `Char.IsWhiteSpace` set, `Split`, `Join`, `StartsWith`, `TrimEnd(char)`, `Replace`, `Path.Combine` (empty parts skipped, no doubled separator, a rooted part starting afresh), and an ASCII case fold. `Wrappers` holds `Option`.

Processes, files, storage, environment variables and the host's MCP state are inputs to the model:

- `HostState` gives the endpoint and the running flag.
- An optional stored list stands for storage.
- A `fileExists` predicate stands for `File.Exists`.
- Run results give exit codes and output text.
- `StartResult` gives the started flag, stdout, exit code and stderr.
- A `Cancellation` value says when the token fires: never, after a number of stdout characters, or while the service waits for the exit or reads stderr.

In these places the code does something a reader might not expect, and the model follows the code:

- The JSON of a server keeps `"url": null` and `"command": null`. The serializer's ignore-null option does not apply to dictionary values.
- The host-state handler creates the host entry **enabled** whatever the running flag is. Detection at load uses the running flag. So the handler is not idempotent on the state change that creates the entry (`McpConfig.HostEntryCreatedEnabled`).
- The request command line has only `--print`, an optional `--system-prompt` and the message. It has no allowed-tools flag and no `--mcp-config` file, although the doc comment at `IMcpConfigService.cs:53-56` describes the configuration JSON as meant for that flag.
- `mcp list` parsing drops every trimmed line that starts with `No MCP`. That includes a server named `No` whose description starts with `MCP`, and a server whose name starts with `No MCP`; `McpManager.ListableName` excludes both.
- A host-state change with no host state (`_mcpServerState == null`) changes nothing.
- While no host entry exists, `AddServerAsync` accepts a user entry named `host-app`, because its duplicate check sees only the entries present. When the host entry appears later, from the state handler or from detection at load, two enabled entries share that name, and `BuildCliConfigJson` throws from `ToDictionary` (`McpConfig.UserHostAppEntryBreaksConfig`). The model returns `DuplicateKey` there.

## Model

| member | source | states |
|---|---|---|
| Models.NewServer | src/Mythetech.Plugins.Agent/Models/McpServerConfig.cs:11-47 | a fresh record has name "", Stdio transport, no command or url, empty args and env, and is enabled and not a host entry |
| McpConfig.AllServers | src/Mythetech.Plugins.Agent/Services/McpConfigService.cs:62-73 | the host entry comes first when present, then every user entry in insertion order; the length is the user count plus one for a host entry |
| McpConfig.FindByName | src/Mythetech.Plugins.Agent/Services/McpConfigService.cs:171 | finds the first entry whose name equals the given one ignoring case, and finds none exactly when no entry matches |
| McpConfig.AddServer | src/Mythetech.Plugins.Agent/Services/McpConfigService.cs:129-161 | rejected as NameRequired iff the name is blank and as DuplicateName iff a host or user entry has the same name ignoring case; otherwise exactly one entry, marked not host, is appended and the host is unchanged |
| McpConfig.AddPreservesUniqueNames | src/Mythetech.Plugins.Agent/Services/McpConfigService.cs:131-158 | adding keeps all names pairwise distinct ignoring case |
| McpConfig.AddPreservesValid | src/Mythetech.Plugins.Agent/Services/McpConfigService.cs:141-158 | adding keeps the host entry the only one marked host |
| McpConfig.AddThenRemove | src/Mythetech.Plugins.Agent/Services/McpConfigService.cs:129-202 | removing a just-added server by its name succeeds and gives back the state before the add |
| McpConfig.AddThenRemoveConfig | src/Mythetech.Plugins.Agent/Services/McpConfigService.cs:129-240 | after adding and removing a server the generated CLI configuration, or the throw, is the same as before, and the enabled names are distinct afterwards iff they were before |
| McpConfig.RemoveServer | src/Mythetech.Plugins.Agent/Services/McpConfigService.cs:169-202 | succeeds iff some user entry matches ignoring case and the first match is not marked host; on success exactly that entry is removed, on failure nothing changes |
| McpConfig.RemoveHostAppRefused | src/Mythetech.Plugins.Agent/Services/McpConfigService.cs:169-181 | a name that matches only the host entry is refused and the state is unchanged |
| McpConfig.RemoveSucceedsIffUserMatch | src/Mythetech.Plugins.Agent/Services/McpConfigService.cs:169-202 | in a valid state removal succeeds iff a user entry matches, and then the user list shrinks by one |
| McpConfig.RemoveKeepsOthers | src/Mythetech.Plugins.Agent/Services/McpConfigService.cs:198 | removal keeps the host, removes one occurrence of the first match and keeps every other entry in order |
| McpConfig.RemovePreservesValid | src/Mythetech.Plugins.Agent/Services/McpConfigService.cs:169-202 | removal keeps the host entry the only one marked host, and a refused removal leaves the store as it was |
| McpConfig.RemovePreservesUniqueNames | src/Mythetech.Plugins.Agent/Services/McpConfigService.cs:169-202 | removal keeps all names pairwise distinct ignoring case |
| McpConfig.NamesUniqueRemove | src/Mythetech.Plugins.Agent/Services/McpConfigService.cs:198 | dropping one entry of a list with distinct names keeps the names distinct |
| McpConfig.SetEnabled | src/Mythetech.Plugins.Agent/Services/McpConfigService.cs:204-222 | the number of user entries, the presence of a host entry and every name stay the same |
| McpConfig.SetEnabledKeepsNames | src/Mythetech.Plugins.Agent/Services/McpConfigService.cs:204-222 | toggling a flag keeps the full list's length and every name at its position |
| McpConfig.SetServerEnabledOnlyFlag | src/Mythetech.Plugins.Agent/Services/McpConfigService.cs:204-222 | only the enabled flag of the first entry of the full list (host first) matching the name changes; an unknown name changes nothing and raises no notification |
| McpConfig.FindByNameCons | src/Mythetech.Plugins.Agent/Services/McpConfigService.cs:207-215 | searching the host entry before the user list is searching the full list |
| McpConfig.SetServerEnabledKeepsValid | src/Mythetech.Plugins.Agent/Services/McpConfigService.cs:204-222 | toggling a flag keeps the host entry the only one marked host |
| McpConfig.SetServerEnabledKeepsUnique | src/Mythetech.Plugins.Agent/Services/McpConfigService.cs:204-222 | toggling a flag keeps names distinct ignoring case |
| McpConfig.EnableMakesConfig | src/Mythetech.Plugins.Agent/Services/McpConfigService.cs:204-240 | after enabling a known server some entry is enabled, so BuildCliConfigJson no longer returns null |
| McpConfig.UserEntries | src/Mythetech.Plugins.Agent/Services/McpConfigService.cs:89 | keeps only entries not marked host, each taken from the input, and keeps a list without host entries unchanged |
| McpConfig.UserEntriesAppend | src/Mythetech.Plugins.Agent/Services/McpConfigService.cs:89 | filtering a concatenation filters each part and keeps their order |
| McpConfig.UserEntriesExactly | src/Mythetech.Plugins.Agent/Services/McpConfigService.cs:89 | every entry not marked host is kept as often as it occurs, and no host entry is kept |
| McpConfig.SaveList | src/Mythetech.Plugins.Agent/Services/McpConfigService.cs:113 | the saved list holds no entry marked host |
| McpConfig.Load | src/Mythetech.Plugins.Agent/Services/McpConfigService.cs:75-100 | the host entry is what detection gives; the user list becomes the stored list without host entries when storage holds one and is kept otherwise |
| McpConfig.SaveLoadRoundTrip | src/Mythetech.Plugins.Agent/Services/McpConfigService.cs:85-120 | loading what was saved from a valid state gives back the same user list |
| McpConfig.LoadPreservesValid | src/Mythetech.Plugins.Agent/Services/McpConfigService.cs:75-100 | loading and the host-state handler keep the host entry the only one marked host |
| McpConfig.DetectHostAppServer | src/Mythetech.Plugins.Agent/Services/McpConfigService.cs:272-310 | with a non-empty endpoint the host entry is replaced by an http "host-app" entry enabled iff the host is running; otherwise nothing changes; user entries never change |
| McpConfig.OnHostStateChanged | src/Mythetech.Plugins.Agent/Services/McpConfigService.cs:343-376 | user entries never change, an existing host entry is never cleared, and a missing host state changes nothing |
| McpConfig.HostEntryFollowsEndpoint | src/Mythetech.Plugins.Agent/Services/McpConfigService.cs:348-373 | with a non-empty endpoint the host entry exists and carries that endpoint, and an existing entry gets enabled equal to the running flag |
| McpConfig.HostStateChangeIdempotent | src/Mythetech.Plugins.Agent/Services/McpConfigService.cs:366-375 | once a host entry exists, handling the same host state twice is the same as once |
| McpConfig.HostEntryCreatedEnabled | src/Mythetech.Plugins.Agent/Services/McpConfigService.cs:351-369 | a newly created host entry is enabled even when the host is not running, and the next identical state change disables it; detection at load would have disabled it at once |
| McpConfig.HostStateChangeKeepsUnique | src/Mythetech.Plugins.Agent/Services/McpConfigService.cs:343-376 | when no user entry is named "host-app", the handler keeps names distinct ignoring case |
| McpConfig.UniqueUserPart | src/Mythetech.Plugins.Agent/Services/McpConfigService.cs:62-73 | distinct names ignoring case over the full list imply distinct names over the user list |
| McpConfig.UniqueWithHost | src/Mythetech.Plugins.Agent/Services/McpConfigService.cs:62-73 | a "host-app" entry over user entries with pairwise distinct names, none named "host-app", gives a full list with distinct names |
| McpConfig.NamesUniqueHead | src/Mythetech.Plugins.Agent/Services/McpConfigService.cs:136 | in a list with distinct names the head clashes with no later entry, and the rest stays distinct |
| McpConfig.NamesUniqueCons | src/Mythetech.Plugins.Agent/Services/McpConfigService.cs:136 | a head that clashes with no entry of a distinct list keeps it distinct |
| McpConfig.DifferentFromSameName | src/Mythetech.Plugins.Agent/Services/McpConfigService.cs:136 | a name that differs from one of two equal names ignoring case differs from the other |
| McpConfig.StringArray | src/Mythetech.Plugins.Agent/Services/McpConfigService.cs:261 | a list of strings becomes a JSON array of the same length |
| McpConfig.StringObject | src/Mythetech.Plugins.Agent/Services/McpConfigService.cs:266 | a list of pairs becomes a JSON object with the same number of members |
| McpConfig.BuildServerConfig | src/Mythetech.Plugins.Agent/Services/McpConfigService.cs:242-270 | every server becomes a JSON object |
| McpConfig.ReadStringsOfArray | src/Mythetech.Plugins.Agent/Services/McpConfigService.cs:261 | reading back a JSON string array gives the original strings |
| McpConfig.ReadPairsOfObject | src/Mythetech.Plugins.Agent/Services/McpConfigService.cs:266 | reading back a JSON string object gives the original pairs in order |
| McpConfig.ServerConfigRoundTrip | src/Mythetech.Plugins.Agent/Services/McpConfigService.cs:242-270 | the object reads back as the server's type, url or command, args and env; "args" is present iff the transport is Stdio and args are non-empty, and likewise "env" |
| McpConfig.StdioConfigRoundTrip | src/Mythetech.Plugins.Agent/Services/McpConfigService.cs:242-270 | a stdio server's object reads back as that server, with "args" and "env" present iff they are non-empty |
| McpConfig.StdioArgsRead | src/Mythetech.Plugins.Agent/Services/McpConfigService.cs:259-262 | a stdio server's args read back in order, and "args" is present iff there are any |
| McpConfig.StdioEnvRead | src/Mythetech.Plugins.Agent/Services/McpConfigService.cs:264-267 | a stdio server's env reads back in order, and "env" is present iff there is any |
| McpConfig.LookupAt | src/Mythetech.Plugins.Agent/Services/McpConfigService.cs:242-270 | looking up a key gives the value at its first occurrence |
| McpConfig.LookupAbsent | src/Mythetech.Plugins.Agent/Services/McpConfigService.cs:242-270 | looking up a missing key gives nothing |
| McpConfig.EnabledServers | src/Mythetech.Plugins.Agent/Services/McpConfigService.cs:226 | keeps only enabled entries, each taken from the input, and is empty iff no entry is enabled |
| McpConfig.EnabledServersAppend | src/Mythetech.Plugins.Agent/Services/McpConfigService.cs:226 | filtering a concatenation filters each part and keeps their order |
| McpConfig.EnabledServersExactly | src/Mythetech.Plugins.Agent/Services/McpConfigService.cs:226 | every enabled entry is kept as often as it occurs, and no disabled entry is kept |
| McpConfig.Keys | src/Mythetech.Plugins.Agent/Services/McpConfigService.cs:234-236 | the keys of an object in member order |
| McpConfig.Names | src/Mythetech.Plugins.Agent/Services/McpConfigService.cs:234-236 | the names of a server list in order |
| McpConfig.ViewsOf | src/Mythetech.Plugins.Agent/Services/McpConfigService.cs:234-236 | one name and view per server |
| McpConfig.BuildCliConfigJson | src/Mythetech.Plugins.Agent/Services/McpConfigService.cs:224-240 | null iff no entry of the full list is enabled; the ToDictionary ArgumentException iff some entry is enabled and two enabled entries share a name exactly; otherwise the document |
| McpConfig.ConfigListsEnabledServers | src/Mythetech.Plugins.Agent/Services/McpConfigService.cs:224-240 | when the document is built, the keys under "mcpServers" are exactly the names of the enabled entries in order, and each entry reads back as that server's view |
| McpConfig.ReadServersOfEntries | src/Mythetech.Plugins.Agent/Services/McpConfigService.cs:234-236 | reading the "mcpServers" members back gives each server's name and view |
| McpConfig.UniqueNamesGiveDistinctEnabled | src/Mythetech.Plugins.Agent/Services/McpConfigService.cs:234-236 | names distinct ignoring case mean the dictionary keys of the enabled entries are distinct, so the build never throws |
| McpConfig.UserHostAppEntryBreaksConfig | src/Mythetech.Plugins.Agent/Services/McpConfigService.cs:351-360 | with no host entry, an enabled user entry named host-app is accepted and the configuration builds; once the handler, or detection at load, creates the host entry, the same build throws |
| McpConfig.SameNameThrows | src/Mythetech.Plugins.Agent/Services/McpConfigService.cs:232-234 | a host entry and a user entry, both enabled and with the same name, make ToDictionary throw |
| McpConfig.FilterKeepsDistinct | src/Mythetech.Plugins.Agent/Services/McpConfigService.cs:226 | filtering to the enabled entries keeps names distinct |
| McpConfig.FindByNameAfter | src/Mythetech.Plugins.Agent/Services/McpConfigService.cs:158-171 | a name not in the list is found at the appended entry |
| McpConfig.McpConfigService.constructor | src/Mythetech.Plugins.Agent/Services/McpConfigService.cs:35-51 | the store starts with no host entry and no user entries |
| McpConfig.McpConfigService.LoadAsync | src/Mythetech.Plugins.Agent/Services/McpConfigService.cs:75-100 | the new state is Load of the old one, and one change notification is raised |
| McpConfig.McpConfigService.SaveAsync | src/Mythetech.Plugins.Agent/Services/McpConfigService.cs:102-121 | with storage, the written list is the user list without host entries; without storage nothing is written |
| McpConfig.McpConfigService.AddServerAsync | src/Mythetech.Plugins.Agent/Services/McpConfigService.cs:129-161 | a rejected add reports its error and changes nothing; an accepted add moves to AddServer's new state and notifies once |
| McpConfig.McpConfigService.RemoveServerAsync | src/Mythetech.Plugins.Agent/Services/McpConfigService.cs:169-202 | result and new state are RemoveServer's; a notification is raised iff the removal succeeded |
| McpConfig.McpConfigService.SetServerEnabled | src/Mythetech.Plugins.Agent/Services/McpConfigService.cs:204-222 | the new state is SetEnabled of the old one; a notification is raised iff the name was found |
| McpConfig.McpConfigService.OnHostAppMcpStateChanged | src/Mythetech.Plugins.Agent/Services/McpConfigService.cs:343-376 | the new state is OnHostStateChanged of the old one; a notification is raised iff an entry was created or updated |
| McpManager.EnvArgs | src/Mythetech.Plugins.Agent/Services/ClaudeMcpManager.cs:46-53 | two arguments per environment entry |
| McpManager.BuildAddArgs | src/Mythetech.Plugins.Agent/Services/ClaudeMcpManager.cs:35-75 | the loop builds exactly the add argument vector AddArgv |
| McpManager.BuildAddTail | src/Mythetech.Plugins.Agent/Services/ClaudeMcpManager.cs:55-75 | the server name is followed by "--", the command if non-empty and the args for stdio, or by the url if non-empty for http |
| McpManager.EnvArgsAt | src/Mythetech.Plugins.Agent/Services/ClaudeMcpManager.cs:48-52 | pair k is "--env" followed by "KEY=VALUE" of entry k |
| McpManager.EnvArgsAppend | src/Mythetech.Plugins.Agent/Services/ClaudeMcpManager.cs:48-52 | one more environment entry appends one more "--env" pair |
| McpManager.AddArgvShape | src/Mythetech.Plugins.Agent/Services/ClaudeMcpManager.cs:35-75 | the vector starts with mcp add --scope user --transport stdio or http, the env pairs come before the name, and the transport tail follows the name |
| McpManager.StdioTail | src/Mythetech.Plugins.Agent/Services/ClaudeMcpManager.cs:59-68 | a stdio tail is "--", then the command if non-empty, then the args in order |
| McpManager.AddServerCommand | src/Mythetech.Plugins.Agent/Services/ClaudeMcpManager.cs:26-78 | no command iff the CLI path is null or empty; otherwise the add vector is run at that path |
| McpManager.RemoveServerCommand | src/Mythetech.Plugins.Agent/Services/ClaudeMcpManager.cs:83-94 | no command iff the CLI path is null or empty; otherwise exactly mcp remove --scope user and the name |
| McpManager.CommandResult | src/Mythetech.Plugins.Agent/Services/ClaudeMcpManager.cs:158-203 | a command succeeds iff it was built, the process started and it exited with code 0 |
| McpManager.Filter | src/Mythetech.Plugins.Agent/Services/ClaudeMcpManager.cs:127 | keeps only non-empty pieces, each from the input |
| McpManager.NameOfLine | src/Mythetech.Plugins.Agent/Services/ClaudeMcpManager.cs:129-137 | a parsed name is non-empty and holds no space |
| McpManager.ParseLine | src/Mythetech.Plugins.Agent/Services/ClaudeMcpManager.cs:129-137 | one listing line adds exactly its name, if it has one |
| McpManager.NamesOfLinesAreWords | src/Mythetech.Plugins.Agent/Services/ClaudeMcpManager.cs:127-140 | at most one name per line, each non-empty and without spaces |
| McpManager.NamesOfNextLine | src/Mythetech.Plugins.Agent/Services/ClaudeMcpManager.cs:127-140 | one more line adds its name, if any, at the end |
| McpManager.ConcatMapCons | src/Mythetech.Plugins.Agent/Services/ClaudeMcpManager.cs:127-140 | the names of a line followed by more lines are that line's names, then the rest's |
| McpManager.ParseServerList | src/Mythetech.Plugins.Agent/Services/ClaudeMcpManager.cs:126-140 | the loop collects exactly ListedNames of the output |
| McpManager.ListServers | src/Mythetech.Plugins.Agent/Services/ClaudeMcpManager.cs:99-147 | without a CLI path or printed output the list is empty; every listed name is non-empty and holds no space |
| McpManager.ContainsIgnoreCase | src/Mythetech.Plugins.Agent/Services/ClaudeMcpManager.cs:155 | true iff some listed name equals the given one ignoring case |
| McpManager.ServerExists | src/Mythetech.Plugins.Agent/Services/ClaudeMcpManager.cs:152-156 | a server can only exist when the CLI was found and listed |
| McpManager.EntryNames | src/Mythetech.Plugins.Agent/Services/ClaudeMcpManager.cs:126-140 | the names of rendered listing entries in order |
| McpManager.TrimRenderedLine | src/Mythetech.Plugins.Agent/Services/ClaudeMcpManager.cs:129 | a trimmed listing line starts with the name followed by a space or the end |
| McpManager.BeforeOfTrimmedLine | src/Mythetech.Plugins.Agent/Services/ClaudeMcpManager.cs:133 | the text before the first space of such a line is the name |
| McpManager.NotNoticeLine | src/Mythetech.Plugins.Agent/Services/ClaudeMcpManager.cs:130 | a line for a listable name does not start with "No MCP" |
| McpManager.NameOfRenderedLine | src/Mythetech.Plugins.Agent/Services/ClaudeMcpManager.cs:129-137 | the name of a rendered line is the entry's name |
| McpManager.ListingRoundTrip | src/Mythetech.Plugins.Agent/Services/ClaudeMcpManager.cs:126-140 | parsing a listing of listable entries gives back their names in order |
| McpManager.SplitConcat | src/Mythetech.Plugins.Agent/Services/ClaudeMcpManager.cs:127 | splitting a line, a newline and the rest gives the line, then the rest's pieces |
| CliService.ChainedReplaceIsPerChar | src/Mythetech.Plugins.Agent/Services/ClaudeCliService.cs:121 | the two chained replacements are one per-character escape |
| CliService.EscapeArgumentShape | src/Mythetech.Plugins.Agent/Services/ClaudeCliService.cs:118-123 | the result is a quote, the escaped text and a quote |
| CliService.EscapeCharsLength | src/Mythetech.Plugins.Agent/Services/ClaudeCliService.cs:121 | escaping adds one character per backslash and per quote |
| CliService.EscapeArgumentLength | src/Mythetech.Plugins.Agent/Services/ClaudeCliService.cs:118-123 | the length is the argument's plus one per backslash and per quote, plus two |
| CliService.UnescapeEscape | src/Mythetech.Plugins.Agent/Services/ClaudeCliService.cs:121 | dropping each escaping backslash gives back the argument |
| CliService.EscapeArgumentInjective | src/Mythetech.Plugins.Agent/Services/ClaudeCliService.cs:118-123 | distinct arguments escape differently |
| CliService.EscapeCharsQuotesEscaped | src/Mythetech.Plugins.Agent/Services/ClaudeCliService.cs:121 | every quote in the escaped text is preceded by a backslash |
| CliService.EscapeArgumentDoublesLoneBackslash | src/Mythetech.Plugins.Agent/Services/ClaudeCliService.cs:118-123 | as written, the argument a\b is split back as a\\b, not as a\b |
| CliService.EscapedLoneBackslash | src/Mythetech.Plugins.Agent/Services/ClaudeCliService.cs:121-122 | as written, a\b becomes "a\\b" (backslash doubled, quoted) |
| CliService.ReadDoubledBackslash | src/Mythetech.Plugins.Agent/Services/ClaudeCliService.cs:118-123 | the runtime reads two backslashes not followed by a quote as two backslashes |
| CliService.EscapeCharsWithoutBackslash | src/Mythetech.Plugins.Agent/Services/ClaudeCliService.cs:121 | without backslashes the written escape and the corrected one agree |
| CliService.EscapeArgumentWithoutBackslash | src/Mythetech.Plugins.Agent/Services/ClaudeCliService.cs:118-123 | without backslashes the written escape reaches the CLI unchanged |
| CliService.EscapeIsQuoteWithoutBackslash | src/Mythetech.Plugins.Agent/Services/ClaudeCliService.cs:118-123 | on text without backslashes EscapeArgument is the correct quoting |
| CliService.ArgumentList | src/Mythetech.Plugins.Agent/Services/ClaudeCliService.cs:98-116 | for a given quoting of free text: "--print", then "--system-prompt" and the quoted prompt iff the prompt is non-null and non-empty, then the quoted message |
| CliService.BuildArgumentsRoundTrip | src/Mythetech.Plugins.Agent/Services/ClaudeCliService.cs:98-123 | with QuoteArgument in place of EscapeArgument, the runtime splits the command line back into exactly --print, the optional --system-prompt and prompt, and the message |
| CliService.BuildArgumentsWithoutBackslash | src/Mythetech.Plugins.Agent/Services/ClaudeCliService.cs:98-116 | when neither the message nor the prompt holds a backslash, the command line as written is the corrected one and splits back into exactly the intended arguments |
| CliService.BuildArgumentsDoublesLoneBackslash | src/Mythetech.Plugins.Agent/Services/ClaudeCliService.cs:98-123 | as written, the message a\b with no prompt is split back as --print and a\\b, not the intended arguments |
| CliService.JoinTwo | src/Mythetech.Plugins.Agent/Services/ClaudeCliService.cs:115 | joining two arguments puts one space between them |
| CliService.JoinFour | src/Mythetech.Plugins.Agent/Services/ClaudeCliService.cs:115 | joining four arguments puts one space between each pair |
| CliService.Chunks | src/Mythetech.Plugins.Agent/Services/ClaudeCliService.cs:67-76 | one one-character chunk per character of stdout, in order |
| CliService.ConcatChunks | src/Mythetech.Plugins.Agent/Services/ClaudeCliService.cs:67-76 | the chunks concatenate to stdout |
| CliService.ChunksAppend | src/Mythetech.Plugins.Agent/Services/ClaudeCliService.cs:72-76 | reading one more character appends one more chunk |
| CliService.ReadStdout | src/Mythetech.Plugins.Agent/Services/ClaudeCliService.cs:67-76 | the read loop yields one chunk per character read, stopping at the end of stdout or at cancellation, and reports whether it was cancelled |
| CliService.ErrorChunk | src/Mythetech.Plugins.Agent/Services/ClaudeCliService.cs:80-90 | an error chunk "\n\n**Error:** " + stderr appears iff the exit code is non-zero and stderr is not blank |
| CliService.StreamFraming | src/Mythetech.Plugins.Agent/Services/ClaudeCliService.cs:25-96 | nothing is yielded without a CLI path or a started process; a completed run yields stdout one character at a time, then the error chunk iff the exit is non-zero with non-blank stderr; a cancelled run yields a prefix of stdout and no error chunk, all of stdout when the token fires after stdout ended |
| CliService.ClaudeCliService.constructor | src/Mythetech.Plugins.Agent/Services/ClaudeCliService.cs:19-23 | no process, no token source, no events |
| CliService.ClaudeCliService.CleanupProcess | src/Mythetech.Plugins.Agent/Services/ClaudeCliService.cs:144-151 | process and token source are cleared, nothing is processing, and false is raised |
| CliService.ClaudeCliService.CancelCurrentRequest | src/Mythetech.Plugins.Agent/Services/ClaudeCliService.cs:125-142 | the token source is cancelled if present; a running process is killed unless the kill fails; nothing else changes |
| CliService.ClaudeCliService.Dispose | src/Mythetech.Plugins.Agent/Services/ClaudeCliService.cs:153-158 | disposing cancels like CancelCurrentRequest |
| CliService.ClaudeCliService.SendMessageAsync | src/Mythetech.Plugins.Agent/Services/ClaudeCliService.cs:25-96 | without a CLI path nothing changes and nothing is yielded; otherwise the command line is BuildArguments with EscapeArgument as written, the yields are Yielded, the outcome is Outcome, and cleanup runs on every exit, raising true then false or only false |
| CommandLine.LeadingBackslashes | src/Mythetech.Plugins.Agent/Services/ClaudeCliService.cs:118-123 | the length of the leading backslash run |
| CommandLine.LeadingRun | src/Mythetech.Plugins.Agent/Services/ClaudeCliService.cs:118-123 | every character in the leading run is a backslash |
| CommandLine.NextArgument | src/Mythetech.Plugins.Agent/Services/ClaudeCliService.cs:41 | reading an argument never grows the rest and consumes at least one character unless it stops at a separator |
| CommandLine.QuotedBody | src/Mythetech.Plugins.Agent/Services/ClaudeCliService.cs:118-123 | the corrected escape, closed by a quote, reads back as the original text |
| CommandLine.QuotedRunThen | src/Mythetech.Plugins.Agent/Services/ClaudeCliService.cs:118-123 | text whose leading backslash run is followed by some character reads back as itself after the corrected escape |
| CommandLine.QuotedRunAtEnd | src/Mythetech.Plugins.Agent/Services/ClaudeCliService.cs:118-123 | text that is only backslashes reads back as itself after the corrected escape and the closing quote |
| CommandLine.QuotedRunThenQuote | src/Mythetech.Plugins.Agent/Services/ClaudeCliService.cs:118-123 | a backslash run then a quote reads back when the rest does |
| CommandLine.QuotedRunThenChar | src/Mythetech.Plugins.Agent/Services/ClaudeCliService.cs:118-123 | a backslash run then another character reads back when the rest does |
| CommandLine.EvenRunThenQuote | src/Mythetech.Plugins.Agent/Services/ClaudeCliService.cs:118-123 | 2k backslashes before a quote are read as k backslashes, and the quote toggles quoting |
| CommandLine.OddRunThenQuote | src/Mythetech.Plugins.Agent/Services/ClaudeCliService.cs:118-123 | 2k+1 backslashes before a quote are read as k backslashes and a literal quote |
| CommandLine.LiteralRun | src/Mythetech.Plugins.Agent/Services/ClaudeCliService.cs:118-123 | backslashes not followed by a quote are kept literally |
| CommandLine.PlainChar | src/Mythetech.Plugins.Agent/Services/ClaudeCliService.cs:118-123 | a character other than a backslash or a quote, and not a separator outside quotes, is kept literally |
| CommandLine.ClosingQuote | src/Mythetech.Plugins.Agent/Services/ClaudeCliService.cs:118-123 | a closing quote before a separator or the end ends the argument |
| CommandLine.NextArgumentOfWord | src/Mythetech.Plugins.Agent/Services/ClaudeCliService.cs:103-115 | a word without spaces, quotes or backslashes before a separator is read as itself |
| CommandLine.QuoteArgumentRoundTrip | src/Mythetech.Plugins.Agent/Services/ClaudeCliService.cs:118-123 | any text quoted by the corrected escape is split back as exactly that text |
| CommandLine.PlainWordRoundTrip | src/Mythetech.Plugins.Agent/Services/ClaudeCliService.cs:103-115 | a word without spaces, quotes or backslashes is split back as itself |
| CommandLine.LeadingSpace | src/Mythetech.Plugins.Agent/Services/ClaudeCliService.cs:115 | a leading space does not change the split |
| CliDetector.CandidatePaths | src/Mythetech.Plugins.Agent/Services/ClaudeCliDetector.cs:65-96 | three candidates on Windows; on macOS and Linux two fixed paths then ~/.local/bin/claude and ~/.npm-global/bin/claude, in the source's order |
| CliDetector.WindowsCandidatesNameTheExecutable | src/Mythetech.Plugins.Agent/Services/ClaudeCliDetector.cs:67-77 | with the backslash separator every Windows candidate ends in \claude.exe or \claude.cmd, whatever the folders are |
| CliDetector.UnixCandidatesNameTheExecutable | src/Mythetech.Plugins.Agent/Services/ClaudeCliDetector.cs:78-95 | every macOS and Linux candidate ends in /claude |
| CliDetector.FixedPathsNameTheExecutable | src/Mythetech.Plugins.Agent/Services/ClaudeCliDetector.cs:80-90 | each fixed macOS and Linux path ends in /claude |
| CliDetector.HomePathsNameTheExecutable | src/Mythetech.Plugins.Agent/Services/ClaudeCliDetector.cs:83-94 | both home-relative paths end in /claude for any home directory |
| CliDetector.FirstExisting | src/Mythetech.Plugins.Agent/Services/ClaudeCliDetector.cs:24-31 | the first existing candidate in list order, or none iff no candidate exists |
| CliDetector.FirstExistingAt | src/Mythetech.Plugins.Agent/Services/ClaudeCliDetector.cs:24-31 | the first existing candidate is the one found |
| CliDetector.FirstExistingNone | src/Mythetech.Plugins.Agent/Services/ClaudeCliDetector.cs:24-31 | with no existing candidate none is found |
| CliDetector.FirstLineClean | src/Mythetech.Plugins.Agent/Services/ClaudeCliDetector.cs:117 | the first line holds no newline and is trimmed |
| CliDetector.PathFromLookup | src/Mythetech.Plugins.Agent/Services/ClaudeCliDetector.cs:98-126 | a path iff the lookup exited 0 with a non-empty first line, and then it is that line |
| CliDetector.FirstLineOfListing | src/Mythetech.Plugins.Agent/Services/ClaudeCliDetector.cs:117 | for a listing that starts with a path and a line break, the first line is that path |
| CliDetector.TrimmedTail | src/Mythetech.Plugins.Agent/Services/ClaudeCliDetector.cs:117 | trimming a path followed by more text keeps the path and a prefix of the rest |
| CliDetector.LineBeforeBreak | src/Mythetech.Plugins.Agent/Services/ClaudeCliDetector.cs:117 | before the first newline is the path, possibly with a carriage return |
| CliDetector.BeforeBreak | src/Mythetech.Plugins.Agent/Services/ClaudeCliDetector.cs:117 | text before the first newline after a path is the path, possibly with a carriage return |
| CliDetector.TrimDropsReturn | src/Mythetech.Plugins.Agent/Services/ClaudeCliDetector.cs:117 | trimming removes a trailing carriage return |
| CliDetector.VersionFromRun | src/Mythetech.Plugins.Agent/Services/ClaudeCliDetector.cs:38-63 | a version iff the run exited 0, and then the trimmed stdout |
| CliDetector.Detect | src/Mythetech.Plugins.Agent/Services/ClaudeCliDetector.cs:19-36 | the first existing candidate, or the PATH lookup's result when none exists |
| CliDetector.DetectedPathHasText | src/Mythetech.Plugins.Agent/Services/ClaudeCliDetector.cs:19-36 | a detected path is non-empty |
| CliDetector.Probed | src/Mythetech.Plugins.Agent/Services/ClaudeCliDetector.cs:24-31 | the candidates probed are a prefix of the list |
| CliDetector.NullDetectionProbesEverything | src/Mythetech.Plugins.Agent/Services/ClaudeCliDetector.cs:33-35 | a null detection probed every candidate, and the lookup gave no path |
| CliDetector.ClaudeCliDetector.constructor | src/Mythetech.Plugins.Agent/Services/ClaudeCliDetector.cs:7-8 | both caches start empty |
| CliDetector.ClaudeCliDetector.GetCliPathAsync | src/Mythetech.Plugins.Agent/Services/ClaudeCliDetector.cs:19-36 | a cached path is returned without probing; otherwise the detected path is returned and cached, the probed candidates are recorded, and the lookup runs only when no candidate exists |
| CliDetector.ClaudeCliDetector.ProbeCandidates | src/Mythetech.Plugins.Agent/Services/ClaudeCliDetector.cs:24-31 | the first existing candidate is found, or none; the probed candidates are recorded and nothing else changes |
| CliDetector.ClaudeCliDetector.IsInstalledAsync | src/Mythetech.Plugins.Agent/Services/ClaudeCliDetector.cs:10-17 | a cached result is returned without probing; otherwise the result is whether the path is non-empty; the result is cached either way |
| CliDetector.ClaudeCliDetector.GetVersionAsync | src/Mythetech.Plugins.Agent/Services/ClaudeCliDetector.cs:38-63 | no version without a path; otherwise the version rule on the run, with the path cached as by GetCliPathAsync |
| CliDetector.ClaudeCliDetector.ClearCache | src/Mythetech.Plugins.Agent/Services/ClaudeCliDetector.cs:194-198 | both caches are empty afterwards |
| RegistryGenerator.LastPieceIsSuffix | tools/PluginRegistryGenerator.cs:93 | the last piece is the suffix after the last separator, holds no separator, and is the whole text iff there is none |
| RegistryGenerator.ShortNameShape | tools/PluginRegistryGenerator.cs:93 | the short name is the lower-cased text after the last dot, with no dot and no upper-case letter |
| RegistryGenerator.ShortNameOfNotes | tools/PluginRegistryGenerator.cs:93 | the id Mythetech.Plugins.Notes gives the short name notes |
| RegistryGenerator.LastPieceOfConcat | tools/PluginRegistryGenerator.cs:93 | the last piece of a, a separator and b (without a separator) is b |
| RegistryGenerator.ReplaceCharPointwise | tools/PluginRegistryGenerator.cs:94 | replacing a character by one character changes exactly those positions |
| RegistryGenerator.PackageNameShape | tools/PluginRegistryGenerator.cs:94 | the package name is the id with every dot replaced by a dash, position by position |
| RegistryGenerator.PackageNameInverse | tools/PluginRegistryGenerator.cs:94 | for an id without dashes, turning dashes back into dots recovers the id |
| RegistryGenerator.UriIgnoresTrailingSlashes | tools/PluginRegistryGenerator.cs:96 | extra trailing slashes on the CDN prefix do not change the uri |
| RegistryGenerator.TrimEndSlashes | tools/PluginRegistryGenerator.cs:96 | any number of extra trailing slashes does not change the trimmed prefix |
| RegistryGenerator.TrimEndCharSlash | tools/PluginRegistryGenerator.cs:96 | one trailing slash more does not change the trimmed prefix |
| RegistryGenerator.UriEndsWithSegments | tools/PluginRegistryGenerator.cs:93-96 | the last two path segments of the uri are the short name and the zip name |
| RegistryGenerator.ShortNameHasNoSlash | tools/PluginRegistryGenerator.cs:93 | an id without slashes gives a short name without slashes |
| RegistryGenerator.ZipNameHasNoSlash | tools/PluginRegistryGenerator.cs:95 | an id without slashes gives a zip name without slashes |
| RegistryGenerator.SplitAtSeparator | tools/PluginRegistryGenerator.cs:93 | splitting at a separator splits each side |
| RegistryGenerator.SplitWithoutSeparator | tools/PluginRegistryGenerator.cs:93 | text without the separator is one piece |
| RegistryGenerator.InsertMultiset | tools/PluginRegistryGenerator.cs:122 | insertion adds exactly the inserted entry |
| RegistryGenerator.InsertSorted | tools/PluginRegistryGenerator.cs:122 | insertion into a sorted list keeps it sorted by id |
| RegistryGenerator.ConsSorted | tools/PluginRegistryGenerator.cs:122 | an entry sorting no later than the head of a sorted list keeps it sorted |
| RegistryGenerator.SortByIdCorrect | tools/PluginRegistryGenerator.cs:122 | the sorted list is ordered by id and a permutation of the input |
| RegistryGenerator.ChosenConfiguration | tools/PluginRegistryGenerator.cs:39-60 | the preferred configuration when built, else the alternative when built, and none iff neither is built |
| RegistryGenerator.ChosenConfigurationCases | tools/PluginRegistryGenerator.cs:39-48 | the chosen configuration is Debug, Release or the override; an empty override is kept; with no override and no Release folder a Release-only build is found |
| RegistryGenerator.CollectedEntries | tools/PluginRegistryGenerator.cs:32-118 | at most one entry per directory; each uri is derived from its id, and each id comes from a loaded manifest with a built configuration |
| RegistryGenerator.CollectPlugins | tools/PluginRegistryGenerator.cs:32-118 | the loop collects exactly Collect of the directories, and hands Assembly.LoadFrom exactly LoadedDlls: the chosen configuration's DLL, or its fallback, for every directory where one exists, whatever reflection then finds |
| RegistryGenerator.LoadedDllsExist | tools/PluginRegistryGenerator.cs:39-64 | every DLL loaded is the DLL of some directory in the configuration chosen for it, and that configuration was built (no missing file is loaded) |
| RegistryGenerator.EntriesWithinLoads | tools/PluginRegistryGenerator.cs:43-105 | every registry entry comes from a loaded assembly: there are no more entries than loaded DLLs |
| RegistryGenerator.NearestSolution | tools/PluginRegistryGenerator.cs:136-151 | the nearest directory with a solution file, or none iff no directory has one |
| RegistryGenerator.FindSolutionRoot | tools/PluginRegistryGenerator.cs:136-151 | the loop returns the full name of the nearest directory with a solution file, or none |
| RegistryGenerator.NearestSolutionAt | tools/PluginRegistryGenerator.cs:136-151 | the first directory with a solution file is the one found |
| RegistryGenerator.NearestSolutionNone | tools/PluginRegistryGenerator.cs:136-151 | without a solution file none is found |
| RegistryGenerator.GenerateRegistry | tools/PluginRegistryGenerator.cs:9-134 | the result is Generate; when generated, every directory was processed in order, and otherwise none was |
| RegistryGenerator.GeneratedRegistry | tools/PluginRegistryGenerator.cs:9-134 | a registry is generated iff a solution root, a CDN prefix and src exist; without a prefix the run stops; the output is sorted by id, a permutation of the collected entries, each uri derived from its id |
| Text.TrimStart | src/Mythetech.Plugins.Agent/Services/ClaudeMcpManager.cs:129 | removes exactly the leading white space |
| Text.TrimEnd | src/Mythetech.Plugins.Agent/Services/ClaudeMcpManager.cs:129 | removes exactly the trailing white space |
| Text.TrimIsSlice | src/Mythetech.Plugins.Agent/Services/ClaudeMcpManager.cs:129 | a trimmed string is the slice between the leading and trailing white space |
| Text.TrimOfTrimmed | src/Mythetech.Plugins.Agent/Services/ClaudeMcpManager.cs:129 | trimming a trimmed string changes nothing |
| Text.TrimKeepsCore | src/Mythetech.Plugins.Agent/Services/ClaudeCliDetector.cs:117 | trimming text that starts with a trimmed word keeps that word |
| Text.TrimEmptyIffBlank | src/Mythetech.Plugins.Agent/Services/ClaudeCliService.cs:86 | a string trims to empty iff it is blank |
| Text.TrimEndChar | tools/PluginRegistryGenerator.cs:96 | removes exactly the trailing copies of the character |
| Text.Split | src/Mythetech.Plugins.Agent/Services/ClaudeMcpManager.cs:127 | at least one piece and no piece holds the separator |
| Text.JoinSplit | src/Mythetech.Plugins.Agent/Services/ClaudeMcpManager.cs:127 | joining the pieces with the separator gives back the text |
| Text.CombineEndsWith | src/Mythetech.Plugins.Agent/Services/ClaudeCliDetector.cs:72-94 | when the last part is non-empty and not rooted and the part before it is non-empty without a trailing separator, the combined path ends in a separator and the last part |
| Text.CombineEndsWithPart | src/Mythetech.Plugins.Agent/Services/ClaudeCliDetector.cs:72-94 | a combined path ends with its last part when that part is non-empty |
| Text.CombineAfterRoot | src/Mythetech.Plugins.Agent/Services/ClaudeCliDetector.cs:92 | with the home directory "/" the candidate is /.local/bin/claude, with no doubled separator |
| Text.CombineSkipsEmpty | src/Mythetech.Plugins.Agent/Services/ClaudeCliDetector.cs:72 | with an empty local application folder the candidate is the relative Programs\claude\claude.exe |
| Text.BeforeIsPrefix | src/Mythetech.Plugins.Agent/Services/ClaudeMcpManager.cs:133 | the text before the first separator is a prefix without the separator |
| Text.BeforeOfConcat | src/Mythetech.Plugins.Agent/Services/ClaudeMcpManager.cs:133 | the text before the separator in a, separator, b is a |
| Text.BeforeNoSep | src/Mythetech.Plugins.Agent/Services/ClaudeMcpManager.cs:133 | text without the separator is kept whole |
| Text.ReplaceChar | tools/PluginRegistryGenerator.cs:94 | text without the character is unchanged |
| Text.ReplaceCharAppend | src/Mythetech.Plugins.Agent/Services/ClaudeCliService.cs:121 | replacing in a concatenation replaces in each part |
| Text.ReplaceCharLength | src/Mythetech.Plugins.Agent/Services/ClaudeCliService.cs:121 | each replaced character adds the replacement's length less one |
| Text.EqualsIgnoreCaseIsFold | src/Mythetech.Plugins.Agent/Services/McpConfigService.cs:136 | two names are equal ignoring case iff their lower-case folds are equal |
| Text.EqualsIgnoreCaseRefl | src/Mythetech.Plugins.Agent/Services/McpConfigService.cs:171 | every name equals itself ignoring case |
| Text.EqualsIgnoreCaseSym | src/Mythetech.Plugins.Agent/Services/McpConfigService.cs:136 | equality ignoring case is symmetric |

## Left out

- Process I/O and concurrency are left out: starting processes, reading their streams, waiting, killing process trees, and the linked cancellation token. Each is replaced by an input: a start result, an exit code, output text, or a flag saying the kill failed.
- The async fire-and-forget behaviour is left out: `async void` handlers and `_ = RegisterHostAppWithClaudeAsync()`.
  - CLI registration from `AddServerAsync`, `RemoveServerAsync` and the host handler never changes local state, so the table model does not call it.
  - The argument vectors registration would use are modelled in `McpManager`.
- `McpConfig.McpConfigService.AddServerAsync` models the mutation of the caller's object as a new entry with `isHostApp := false`. Aliasing between the caller's record and the stored one is not modelled. Neither is later in-place mutation through other references.
- The JSON serializer output and its indentation and escaping options are left out. JSON is a small tree (`Json`).
- `IPluginStorage` is an optional stored list. Storage exceptions are swallowed in the source and appear here as "no stored list" or "not written".
- Logging and console output are left out. They have no effect on state.
- `Path.Combine` takes the platform from the separator: a backslash means Windows, where `/` also separates and a drive letter roots a path. Null parts, which throw in .NET, do not occur in the model.
- `CliService.Chunks`: a Dafny `char` is a Unicode scalar value, while the source's one-character buffer holds a UTF-16 code unit. A character outside the Basic Multilingual Plane therefore arrives in the source as two chunks, each a lone surrogate, and in the model as one chunk.
- `Environment.GetFolderPath`, the platform query and `Directory.GetCurrentDirectory` are parameters.
- `ToLowerInvariant` and `OrdinalIgnoreCase` are modelled as an ASCII case fold. Unicode case mapping is not modelled.
- `StartsWith("No MCP")` is culture-sensitive in .NET. It is modelled as an ordinal prefix test.
- `RegistryGenerator.SortById` models `OrderBy(p => p.id)` with a caller-supplied total preorder on ids. The default string comparer is culture-sensitive, and the model does not fix it. Sort stability is not stated.
- `CommandLine.ParseArgs` models the .NET runtime's documented rule for splitting a command-line string: spaces and tabs separate, quotes toggle, `""` inside quotes, and backslash runs before a quote. The runtime's own source is not part of this model.
- The registry tool's reflection is reduced to a `ManifestLoad` outcome per directory: assembly loading, type search and `Activator.CreateInstance`. A load exception skips the directory, as in the source.
- The directory filter `Mythetech.Plugins.*` is taken as given: the input is the list of matched directories.
- `Environment.Exit`, `File.WriteAllText` and the console messages are reduced to the `Generation` outcome and the output path.
- `GetInstallationInstructions` is left out. It returns constant Markdown text and has no logic.
- `Dispose` of process and token-source handles is left out. `CliService.ClaudeCliService.Dispose` models only its cancellation, which is the only state it changes.
- An enumerator of `SendMessageAsync` abandoned by its consumer before the end is left out. The model covers completion and cancellation.
- `McpConfig.SetEnabled`: its own contract states only the shape. The full change, "only the flag of the first match", is proved in `McpConfig.SetServerEnabledOnlyFlag`.

## Findings

| source | as written | input that shows it | evidently intended | confidence | as-written member | corrected member |
|---|---|---|---|---|---|---|
| src/Mythetech.Plugins.Agent/Services/ClaudeCliService.cs:118-123 | `EscapeArgument` doubles every backslash, then escapes quotes and wraps the result in quotes. The .NET runtime halves backslashes only when they come before a quote. | The message `a\b` becomes `"a\\b"`, and the CLI receives `a\\b`. A Windows path such as `C:\temp` arrives with doubled separators. | Every message and system prompt reaches the CLI unchanged. A backslash run is doubled only before a quote or before the closing quote. | medium, not executed | CliService.EscapeArgumentDoublesLoneBackslash | CommandLine.QuoteArgumentRoundTrip |

The model keeps the code as written: `CliService.BuildArguments` quotes with `EscapeArgument`, and `CliService.ClaudeCliService.SendMessageAsync` starts the process with that command line. `CliService.BuildArgumentsDoublesLoneBackslash` shows that the message `a\b` then reaches the CLI as `a\\b`. The corrected quoting is `CommandLine.QuoteArgument`, and `CliService.BuildArgumentsCorrected` is the command line built with it. `CliService.BuildArgumentsRoundTrip` proves that this corrected command line splits back into exactly `--print`, the optional `--system-prompt` and prompt, and the message. `CliService.BuildArgumentsWithoutBackslash` shows that the two command lines are the same when neither the message nor the prompt holds a backslash.
