/** The agent editor's list of MCP servers: appending a blank descriptor, removing one by
    position and writing one field of one descriptor. */
module AgentForm {
  import opened Wrappers
  import opened Entities
  import opened Lists

  /** The form's state (`formData`). */
  datatype FormData = FormData(
    name: string,
    description: string,
    role: string,
    capabilities: string,
    mcpServers: seq<McpServer>)

  /** The descriptor fields the editor's inputs write through `handleMcpServerChange`. */
  datatype ServerField = NameField | EndpointField | DescriptionField

  const Blank: FormData := FormData("", "", "", "", [])
  const BlankServer: McpServer := McpServer("", "", "")

  /** The form's state after loading an agent record: every missing field reads as empty. */
  function FromAgent(a: Agent): (d: FormData)
    ensures a.name.Some? ==> d.name == a.name.value
    ensures a.name.None? ==> d.name == ""
    ensures a.description.Some? ==> d.description == a.description.value
    ensures a.description.None? ==> d.description == ""
    ensures a.role.Some? ==> d.role == a.role.value
    ensures a.role.None? ==> d.role == ""
    ensures a.capabilities.Some? ==> d.capabilities == a.capabilities.value
    ensures a.capabilities.None? ==> d.capabilities == ""
    ensures a.mcpServers.Some? ==> d.mcpServers == a.mcpServers.value
    ensures a.mcpServers.None? ==> d.mcpServers == []
  {
    FormData(OrElse(a.name, ""), OrElse(a.description, ""), OrElse(a.role, ""), OrElse(a.capabilities, ""),
      OrElse(a.mcpServers, []))
  }

  /** The server list with a blank descriptor appended; the existing ones are kept as they were. */
  function AddServer(servers: seq<McpServer>): (r: seq<McpServer>)
    ensures |r| == |servers| + 1 && r[..|servers|] == servers
    ensures r[|servers|] == McpServer("", "", "")
  {
    servers + [BlankServer]
  }

  /** The value of one field of a descriptor. */
  function FieldOf(s: McpServer, field: ServerField): string {
    match field
    case NameField => s.name
    case EndpointField => s.endpoint
    case DescriptionField => s.description
  }

  /** The server list with one field of the descriptor at index set to value. */
  function SetServerField(servers: seq<McpServer>, index: int, field: ServerField, value: string): (r: seq<McpServer>)
    requires 0 <= index < |servers|
    ensures |r| == |servers|
    ensures forall i :: 0 <= i < |servers| && i != index ==> r[i] == servers[i]
    ensures FieldOf(r[index], field) == value
    ensures forall f :: f != field ==> FieldOf(r[index], f) == FieldOf(servers[index], f)
  {
    var s := servers[index];
    servers[index := match field
      case NameField => s.(name := value)
      case EndpointField => s.(endpoint := value)
      case DescriptionField => s.(description := value)]
  }

  /** Writing back the value a field already has changes nothing; writing twice keeps the last. */
  lemma SetServerFieldIdempotent(servers: seq<McpServer>, index: int, field: ServerField, v1: string, v2: string)
    requires 0 <= index < |servers|
    ensures SetServerField(servers, index, field, FieldOf(servers[index], field)) == servers
    ensures SetServerField(SetServerField(servers, index, field, v1), index, field, v2)
         == SetServerField(servers, index, field, v2)
  {
  }

  /** Removing the descriptor just added gives the old list back. */
  lemma RemoveAddedServer(servers: seq<McpServer>)
    ensures Without(AddServer(servers), |servers|) == servers
  {
    WithoutAt(AddServer(servers), |servers|);
    assert AddServer(servers)[..|servers|] == servers;
  }

  /** The editor component: `data` is its form state, each handler replaces it as a whole. */
  class Editor {
    var data: FormData

    /** A new editor starts from an empty form. */
    constructor ()
      ensures data == Blank
    {
      data := Blank;
    }

    /** The effect run when the edited agent changes: a present agent replaces the form state,
        an absent one leaves it alone. */
    method Load(agent: Option<Agent>)
      modifies this
      ensures agent.None? ==> data == old(data)
      ensures agent.Some? ==> data == FromAgent(agent.value)
    {
      if agent.Some? {
        data := FromAgent(agent.value);
      }
    }

    /** `handleAddMcpServer`: only the server list changes. */
    method HandleAddMcpServer()
      modifies this
      ensures data == old(data).(mcpServers := AddServer(old(data).mcpServers))
    {
      data := data.(mcpServers := data.mcpServers + [BlankServer]);
    }

    /** `handleRemoveMcpServer`: only the server list changes; an index outside it removes nothing. */
    method HandleRemoveMcpServer(index: int)
      modifies this
      ensures data == old(data).(mcpServers := Without(old(data).mcpServers, index))
    {
      data := data.(mcpServers := Without(data.mcpServers, index));
    }

    /** `handleMcpServerChange`. An index outside the list throws in the editor, so none is passed. */
    method HandleMcpServerChange(index: int, field: ServerField, value: string)
      requires 0 <= index < |data.mcpServers|
      modifies this
      ensures data == old(data).(mcpServers := SetServerField(old(data).mcpServers, index, field, value))
    {
      var newServers := data.mcpServers;
      var server := newServers[index];
      match field {
        case NameField => server := server.(name := value);
        case EndpointField => server := server.(endpoint := value);
        case DescriptionField => server := server.(description := value);
      }
      newServers := newServers[index := server];
      data := data.(mcpServers := newServers);
    }
  }
}
