/** The records the editor and the visualiser exchange with the backend. */
module Entities {
  import opened Wrappers

  /** One step of a workflow. `order` is the user-facing step number that other steps'
      `dependencies` refer to; `id` is the opaque identifier the canvas keys nodes by. */
  datatype Step = Step(id: string, agentId: string, action: string, order: int, dependencies: seq<int>)

  /** One MCP-server descriptor of an agent. */
  datatype McpServer = McpServer(name: string, endpoint: string, description: string)

  /** An agent record as the backend returns it; every field but `id` may be absent. */
  datatype Agent = Agent(
    id: string,
    name: Option<string>,
    description: Option<string>,
    role: Option<string>,
    capabilities: Option<string>,
    mcpServers: Option<seq<McpServer>>)

  /** A workflow record as the backend returns it; every field may be absent. */
  datatype Workflow = Workflow(
    name: Option<string>,
    description: Option<string>,
    workflowDescription: Option<string>,
    steps: Option<seq<Step>>)
}
