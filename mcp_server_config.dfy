/**
 * The tool-server ("MCP server") record passed to the Claude CLI, with the
 * default value every field takes in a freshly constructed record.
 */
module Models {
  import opened Wrappers

  /** How the CLI reaches a server: exactly one of two transports. */
  datatype McpTransportType = Stdio | Http

  /**
   * One configured server. `command`/`url` are the source's nullable strings;
   * `env` is the environment dictionary in its enumeration order.
   */
  datatype McpServerConfig = McpServerConfig(
    name: string,
    transport: McpTransportType,
    command: Option<string>,
    args: seq<string>,
    env: seq<(string, string)>,
    url: Option<string>,
    enabled: bool,
    isHostApp: bool)

  /** The record `new McpServerConfig()` yields before any property is set. */
  function NewServer(): (s: McpServerConfig)
    ensures s.name == [] && s.transport == Stdio
    ensures s.command == None && s.url == None && s.args == [] && s.env == []
    ensures s.enabled && !s.isHostApp
  {
    McpServerConfig([], Stdio, None, [], [], None, true, false)
  }
}
