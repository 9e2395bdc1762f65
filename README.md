# GroupOfAgents: workflow steps, dependency graph and configuration helpers in Dafny

GroupOfAgents lets a user define agents and compose them into workflows. A workflow is a
list of steps. Each step names an agent, an action and the `order` numbers of the steps it
depends on. This project models the logic behind that, and proves properties of the model:

- **Workflow canvas** (`workflow_canvas.dfy`). The visualiser turns a workflow's steps and the
  agent list into a graph. It makes one node per step, placed on a three-column grid and
  labelled with the step's order, agent name and action. It makes one edge per dependency entry
  that matches some step's `order`. The edge runs from the first step carrying that order to the
  step that declared it. An entry that matches nothing is dropped. There is no cycle detection
  and no duplicate-order diagnostic. Nodes are a function. Edges are built by the source's two nested loops: a loop
  over the steps that runs a second loop over each step's dependency list. The two loops are
  proved equal to a specification function.
- **Workflow editor** (`workflow_form.dfy`, `dependency_text.dfy`). The editor appends a blank
  step numbered one past the old length. It removes a step and renumbers the survivors 1..N by a
  loop. It replaces a step's agent or action. It shows a step's dependency list as text and reads
  edited text back. Renumbering rewrites `order` only: dependency entries keep their old numbers.
  `WorkflowForm.StaleDependencyAfterRemove` shows the effect on the graph: after a removal, an
  edge b→c becomes a self-loop on c.
- **Agent editor** (`agent_form.dfy`). It appends a blank MCP-server descriptor, removes one by
  position and writes one field of one descriptor.
- **Configuration helpers** (`config_utils.dfy`). `merge_configs` is a left-to-right,
  last-writer-wins union of dictionaries. `validate_config` checks that every required key is
  present.
- **Workflow base class** (`workflow_base.dfy`). It holds a name and a list of agents; agents are
  appended one at a time; its `repr` text has a fixed shape.

`entities.dfy`, `wrappers.dfy`, `lists.dfy` and `decimal.dfy` hold the shared records, the
`Option` type, removal by position and decimal rendering. Each editor is a class with a `data`
field: it plays the part of the component's `formData` state, and every handler replaces it
as a whole. Each handler's `ensures` ties the new state to a pure function of the old one.
The properties are proved about those functions.

The code does not remap dependencies when a step is removed, raises no error for an
out-of-range removal index, and reports no duplicate, dangling or cyclic dependency. The model follows
the code.

## Model

| member | source | states |
|---|---|---|
| `WorkflowCanvas.BuildNodes` | frontend/src/components/WorkflowCanvas.jsx:20-55 | exactly one node per step, in step order; node i has step i's id, sits at X(i), Y(i), and shows step i's order, agent name and action |
| `WorkflowCanvas.PositionsDistinct` | frontend/src/components/WorkflowCanvas.jsx:25-26 | two different positions in the step list never get the same grid coordinates |
| `WorkflowCanvas.X` | frontend/src/components/WorkflowCanvas.jsx:25 | a node's x is one of the three columns 100, 400, 700 |
| `WorkflowCanvas.Y` | frontend/src/components/WorkflowCanvas.jsx:26 | a node's y is 50 plus a multiple of 150, and is 50 exactly for the first three nodes |
| `WorkflowCanvas.PositionInGrid` | frontend/src/components/WorkflowCanvas.jsx:25-26 | three places on, x repeats and y grows by 150: the grid fills row after row |
| `WorkflowCanvas.NodePositionsIgnoreContent` | frontend/src/components/WorkflowCanvas.jsx:25-26 | coordinates depend on the position alone, so equal inputs get equal coordinates |
| `WorkflowCanvas.NodesDoNotOverlap` | frontend/src/components/WorkflowCanvas.jsx:20-26 | no two nodes of one graph share both coordinates |
| `WorkflowCanvas.FindAgent` | frontend/src/components/WorkflowCanvas.jsx:21 | finds the first agent with the step's agentId; finds nothing exactly when no agent has that id |
| `WorkflowCanvas.AgentName` | frontend/src/components/WorkflowCanvas.jsx:21-22 | the label shows the name of the first agent whose id matches; when no agent matches, it shows "Unknown Agent" |
| `WorkflowCanvas.SourceIndex` | frontend/src/components/WorkflowCanvas.jsx:62 | any step found for a dependency value lies inside the step list |
| `WorkflowCanvas.SourceIndexFirst` | frontend/src/components/WorkflowCanvas.jsx:62 | a dependency resolves to the earliest step with that order (the first wins on duplicates); it resolves to nothing exactly when no step has that order |
| `WorkflowCanvas.DepEdgesCount` | frontend/src/components/WorkflowCanvas.jsx:61-82 | one step gets exactly as many edges as its dependency entries that resolve, never more than it has entries |
| `WorkflowCanvas.EdgeCount` | frontend/src/components/WorkflowCanvas.jsx:58-84 | the number of edges equals the number of resolving dependency entries over all steps, hence at most the number of entries |
| `WorkflowCanvas.DepEdgesAppend` | frontend/src/components/WorkflowCanvas.jsx:61-82 | a step's edges follow the order of its dependency list |
| `WorkflowCanvas.EdgesOfAppend` | frontend/src/components/WorkflowCanvas.jsx:59-84 | edges come grouped by target, in step order |
| `WorkflowCanvas.DanglingDependencyDropped` | frontend/src/components/WorkflowCanvas.jsx:62-63 | an entry matching no step's order adds no edge and changes no other edge |
| `WorkflowCanvas.DepEdgesMembership` | frontend/src/components/WorkflowCanvas.jsx:61-82 | an edge goes into a step exactly when one of its dependency entries produces it |
| `WorkflowCanvas.EdgeMembership` | frontend/src/components/WorkflowCanvas.jsx:58-84 | an edge is in the graph exactly when some entry of some step produces it (both directions) |
| `WorkflowCanvas.EdgeShape` | frontend/src/components/WorkflowCanvas.jsx:62-67 | every edge has as target the declaring step and as source the first step with the entry's order; its id is "source-target" |
| `WorkflowCanvas.SelfLoop` | frontend/src/components/WorkflowCanvas.jsx:62-67 | a step listing its own order, and first to carry it, gets a self-loop edge |
| `WorkflowCanvas.NoDependenciesNoEdges` | frontend/src/components/WorkflowCanvas.jsx:60 | steps whose dependency lists are empty contribute no edges |
| `WorkflowCanvas.DepEdges` | frontend/src/components/WorkflowCanvas.jsx:61-81 | the edges one step's dependency list contributes: at most one per entry, each pointing into that step |
| `WorkflowCanvas.EdgesOf` | frontend/src/components/WorkflowCanvas.jsx:58-84 | the edges of a list of steps, grouped by target in step order: never more than their dependency entries |
| `WorkflowCanvas.PushDepEdges` | frontend/src/components/WorkflowCanvas.jsx:61-81 | the inner loop appends exactly one step's dependency edges to the list built so far |
| `WorkflowCanvas.BuildEdges` | frontend/src/components/WorkflowCanvas.jsx:58-84 | the nested loops build exactly the specified edge list, whose length is the resolving-entry count and at most the entry count |
| `WorkflowCanvas.ComputeGraph` | frontend/src/components/WorkflowCanvas.jsx:16-88 | nothing is computed when the workflow or its step list is missing; otherwise all nodes and the specified edges |
| `Lists.Without` | frontend/src/components/WorkflowForm.jsx:44 | removal by position drops exactly the element at a valid index and keeps the rest in order; an index outside the list removes nothing |
| `Lists.WithoutAt` | frontend/src/components/AgentForm.jsx:37 | after removing at a valid index, one element fewer; survivors keep their relative order; the removed element is the only one missing |
| `Decimal.ValueOfShowNat` | frontend/src/components/WorkflowForm.jsx:159-165 | reading back the decimal text of a number gives the number |
| `WorkflowForm.FromWorkflow` | frontend/src/components/WorkflowForm.jsx:11-20 | loading a workflow copies each present field and defaults each missing one to empty |
| `WorkflowForm.AddStep` | frontend/src/components/WorkflowForm.jsx:27-41 | exactly one step is appended: empty agent, action and dependencies, order old length + 1; earlier steps unchanged |
| `WorkflowForm.AddStepKeepsDense` | frontend/src/components/WorkflowForm.jsx:36 | if orders were 1..N before adding, they are 1..N+1 after |
| `WorkflowForm.Renumbered` | frontend/src/components/WorkflowForm.jsx:46-48 | renumbering gives orders 1..N and changes nothing but `order` |
| `WorkflowForm.Renumber` | frontend/src/components/WorkflowForm.jsx:46-48 | the renumbering loop produces exactly the renumbered list |
| `WorkflowForm.RemoveStep` | frontend/src/components/WorkflowForm.jsx:43-50 | removal at a valid index gives N-1 steps, the survivors in order, differing only in `order`; an invalid index removes nothing; either way orders are 1..length |
| `WorkflowForm.RemoveStepKeepsDependencies` | frontend/src/components/WorkflowForm.jsx:43-50 | the survivors' dependency lists are exactly the old ones minus the removed step's; none is remapped or dropped |
| `WorkflowForm.StaleDependencyAfterRemove` | frontend/src/components/WorkflowForm.jsx:43-50 | with a(1), b(2), c(3) and c depending on 2, removing a turns the canvas edge b→c into a self-loop c→c |
| `WorkflowForm.ChangeStep` | frontend/src/components/WorkflowForm.jsx:52-56 | exactly the chosen field of the chosen step takes the value; length, other steps and other fields unchanged |
| `WorkflowForm.SetDependencies` | frontend/src/components/WorkflowForm.jsx:58-62 | exactly the chosen step's dependency list is replaced; length, other steps and other fields unchanged |
| `WorkflowForm.ChangesKeepDense` | frontend/src/components/WorkflowForm.jsx:52-62 | field changes never disturb the 1..N numbering |
| `WorkflowForm.ShownDependencies` | frontend/src/components/WorkflowForm.jsx:159 | the box shows empty text exactly for an empty list, and its text parses back to the step's list |
| `WorkflowForm.EditDependencies` | frontend/src/components/WorkflowForm.jsx:160-166 | typing into step index's box replaces only that step's dependency list, by the parsed text; clearing the box empties the list |
| `WorkflowForm.EditShownTextChangesNothing` | frontend/src/components/WorkflowForm.jsx:157-167 | committing the dependency text the box shows leaves the step list exactly as it was |
| `WorkflowForm.Editor.constructor` | frontend/src/components/WorkflowForm.jsx:4-9 | the form starts empty |
| `WorkflowForm.Editor.Load` | frontend/src/components/WorkflowForm.jsx:11-20 | a present workflow replaces the form state with its defaulted fields; an absent one changes nothing |
| `WorkflowForm.Editor.HandleAddStep` | frontend/src/components/WorkflowForm.jsx:27-41 | only the step list changes, to the list with one step added |
| `WorkflowForm.Editor.HandleRemoveStep` | frontend/src/components/WorkflowForm.jsx:43-50 | only the step list changes, to the list with the step removed and the rest renumbered |
| `WorkflowForm.Editor.HandleStepChange` | frontend/src/components/WorkflowForm.jsx:52-56 | only the step list changes, by the one-field replacement |
| `WorkflowForm.Editor.HandleDependencyChange` | frontend/src/components/WorkflowForm.jsx:58-62 | only the step list changes, by the dependency-list replacement |
| `WorkflowForm.Editor.OnDependencyTextChange` | frontend/src/components/WorkflowForm.jsx:160-167 | typed text is parsed and becomes the step's dependency list |
| `DependencyText.Split` | frontend/src/components/WorkflowForm.jsx:162 | splitting gives at least one comma-free piece, and gluing the pieces back with commas gives the text again |
| `DependencyText.TrimStart` | frontend/src/components/WorkflowForm.jsx:163 | the result does not start with whitespace |
| `DependencyText.TrimEnd` | frontend/src/components/WorkflowForm.jsx:163 | the result is a prefix of the piece and does not end with whitespace |
| `DependencyText.Trim` | frontend/src/components/WorkflowForm.jsx:163 | a trimmed piece neither starts nor ends with whitespace |
| `DependencyText.TrimStartDropsOnlySpace` | frontend/src/components/WorkflowForm.jsx:163 | trimming the front cuts off whitespace only, leaving a suffix |
| `DependencyText.TrimEndDropsOnlySpace` | frontend/src/components/WorkflowForm.jsx:163 | trimming the back cuts off whitespace only |
| `DependencyText.PieceValue` | frontend/src/components/WorkflowForm.jsx:163-165 | a piece yields one value exactly when, trimmed, it is a numeral, none otherwise, and that value is the numeral's |
| `DependencyText.IsNumeral` | frontend/src/components/WorkflowForm.jsx:164 | a piece the filter keeps is non-empty and holds no comma and no leading or trailing whitespace |
| `DependencyText.NumeralValue` | frontend/src/components/WorkflowForm.jsx:165 | the value's magnitude is that of the digits, and it is negative only after a '-' |
| `DependencyText.Numbers` | frontend/src/components/WorkflowForm.jsx:163-165 | the parsed list is never longer than the list of pieces |
| `DependencyText.NumbersAppend` | frontend/src/components/WorkflowForm.jsx:161-165 | parsing keeps the order of the pieces |
| `DependencyText.JunkPieceDropped` | frontend/src/components/WorkflowForm.jsx:164 | an empty or non-numeric piece is discarded without affecting the others |
| `DependencyText.NumeralPieceKept` | frontend/src/components/WorkflowForm.jsx:164-165 | every numeric piece contributes its value in place, so duplicates are kept |
| `DependencyText.AllJunkIsEmpty` | frontend/src/components/WorkflowForm.jsx:164 | text with no numeric piece, the empty text included, parses to the empty list |
| `DependencyText.NumbersFromPieces` | frontend/src/components/WorkflowForm.jsx:161-165 | every parsed value is the value of some numeric piece of the text |
| `DependencyText.Parse` | frontend/src/components/WorkflowForm.jsx:161-165 | at most one entry per comma-separated piece; text without a comma gives the value of its one piece or nothing |
| `DependencyText.Join` | frontend/src/components/WorkflowForm.jsx:159 | the shown text is empty exactly when the list is |
| `DependencyText.ParseJoin` | frontend/src/components/WorkflowForm.jsx:159-165 | parsing the shown text of any list of exact integers gives the list back, entries, order and duplicates |
| `DependencyText.JoinInjective` | frontend/src/components/WorkflowForm.jsx:159 | two lists that show the same text are equal |
| `AgentForm.FromAgent` | frontend/src/components/AgentForm.jsx:12-22 | loading an agent copies each present field and defaults each missing text field to '' and a missing server list to [] |
| `AgentForm.AddServer` | frontend/src/components/AgentForm.jsx:29-34 | exactly one blank descriptor is appended; existing descriptors unchanged |
| `AgentForm.SetServerField` | frontend/src/components/AgentForm.jsx:41-45 | the chosen field of the chosen descriptor takes the value; length, other descriptors and other fields unchanged |
| `AgentForm.SetServerFieldIdempotent` | frontend/src/components/AgentForm.jsx:41-45 | writing a field's own value changes nothing; of two writes to one field the last wins |
| `AgentForm.RemoveAddedServer` | frontend/src/components/AgentForm.jsx:29-39 | removing the descriptor just added restores the old list |
| `AgentForm.Editor.constructor` | frontend/src/components/AgentForm.jsx:4-10 | the form starts empty |
| `AgentForm.Editor.Load` | frontend/src/components/AgentForm.jsx:12-22 | a present agent replaces the form state with its defaulted fields; an absent one changes nothing |
| `AgentForm.Editor.HandleAddMcpServer` | frontend/src/components/AgentForm.jsx:29-34 | only the server list changes, by the append; name, description, role and capabilities stay |
| `AgentForm.Editor.HandleRemoveMcpServer` | frontend/src/components/AgentForm.jsx:36-39 | only the server list changes, by removal at the index; an out-of-range index changes nothing |
| `AgentForm.Editor.HandleMcpServerChange` | frontend/src/components/AgentForm.jsx:41-45 | only the server list changes, by the one-field write |
| `ConfigUtils.Merged` | src/group_of_agents/utils/__init__.py:16-19 | the merged keys are exactly the union of the configs' keys; no configs give the empty map |
| `ConfigUtils.MergeConfigs` | src/group_of_agents/utils/__init__.py:16-19 | the update loop computes exactly the specified merge |
| `ConfigUtils.MergedLastWins` | src/group_of_agents/utils/__init__.py:17-18 | a key's merged value is the one from the last config holding it |
| `ConfigUtils.MergedValueSource` | src/group_of_agents/utils/__init__.py:16-19 | every merged value comes from some config that holds the key, and no later config holds it |
| `ConfigUtils.MergeExample` | tests/utils/test_utils.py:6-17 | the test's three configs merge with the second overriding key2 |
| `ConfigUtils.ValidateConfig` | src/group_of_agents/utils/__init__.py:33 | true exactly when every required key is in the config |
| `ConfigUtils.ValidateByKeys` | src/group_of_agents/utils/__init__.py:33 | validity depends only on whether the required keys are among the config's keys; more keys never make it fail |
| `ConfigUtils.ValidateExamples` | tests/utils/test_utils.py:20-41 | all keys present gives true, some missing gives false, none required gives true |
| `WorkflowBase.ReprText` | src/group_of_agents/workflows/base.py:46-47 | the text is the class name and "(name=", then the name, then ", agents=", then decimal digits that read back as the count, then ")" |
| `WorkflowBase.ReprTextTellsCount` | src/group_of_agents/workflows/base.py:46-47 | for one class and name, the text determines the agent count |
| `WorkflowBase.BaseWorkflow.constructor` | src/group_of_agents/workflows/base.py:12-21 | the name is the argument; the agents are the given list, or empty when none is given |
| `WorkflowBase.BaseWorkflow.AddAgent` | src/group_of_agents/workflows/base.py:23-30 | the agent is appended last, earlier agents and the name unchanged |
| `WorkflowBase.BaseWorkflow.Repr` | src/group_of_agents/workflows/base.py:46-47 | the text is ReprText of the workflow's current name and number of agents: "<ClassName>(name=<name>, agents=<number of agents>)" |
| `WorkflowBase.ReprAfterAdds` | tests/workflows/test_base.py:29-63 | a new workflow shows agents=0, and after two additions shows agents=2 |

## Left out

- The canvas drops unresolved entries silently, and `removeStep` with an out-of-range index removes nothing and renumbers. Neither reports anything, so the model has no error values for them.
- JSX markup, style objects, ReactFlow props, `MarkerType`, `type`/`animated` edge fields, and the `setNodes`/`setEdges` hooks: presentation only. Nodes and edges are modelled as their data (id, position, label parts, source, target).
- WorkflowCanvas.AgentName: a matching agent without a name renders as empty text; the model writes "".
- DependencyText.IsNumeral: only an optional sign followed by decimal digits counts as numeric. The `isNaN` filter also lets through other pieces, which `parseInt` then reads differently: fractions ("1.5" gives 1), exponents ("1e3" gives 1), hexadecimal ("0x10" gives 16), binary and octal prefixes ("0b1" and "0o7" give 0), a leading point (".5" gives NaN) and "Infinity" (gives NaN). None of these pieces is modelled. Whitespace for trimming is space, tab, line feed and carriage return, not the full Unicode set.
- DependencyText.NumeralValue: the value is an exact integer. JavaScript reads it as a double, so it rounds above 2^53 in magnitude ("9007199254740993" gives 9007199254740992). That rounding is not modelled.
- DependencyText.Join: entries are shown in plain decimal. JavaScript shows numbers of magnitude 10^21 and above in exponent form ("1e+21"). That form is not modelled.
- DependencyText.ParseJoin: the round trip is proved for exact integers. In the editor it fails for entries of magnitude 10^21 and above ("1e+21" reads back as 1), and entries above 2^53 are rounded when typed.
- WorkflowForm.EditShownTextChangesNothing: holds for the model's exact-integer entries. In the editor it does not hold for entries of magnitude 10^21 and above, for the reason given under DependencyText.ParseJoin.
- Entities.Step: the dependency list is always present; a step without one is modelled with the empty list. The canvas treats a missing list as empty (WorkflowCanvas.jsx line 60). The editor's `step.dependencies.join` at WorkflowForm.jsx line 159 throws on such a step; that throw is not modelled.
- Step ids from the clock: `WorkflowForm.AddStep` takes the new id as a parameter.
- Object aliasing. The editors' handlers write into step and server objects that the previous state shares. `BaseWorkflow` stores the caller's list object itself. The model uses values, so these updates produce new states and nothing is shared.
- WorkflowForm.ChangeStep, WorkflowForm.SetDependencies, AgentForm.SetServerField: require an index inside the list. In the editors an outside index makes the handler throw, and the rendered inputs pass only valid indices. Only the fields the inputs write (agentId and action; name, endpoint and description) are modelled, not arbitrary property names.
- Step `order` and dependency entries are integers compared with `===`. A JSON record holding a string there is not modelled.
- ConfigUtils.Merged: keys are strings and values of any one type. Python dictionaries' insertion order is not modelled. The inputs are values and cannot be modified.
- The abstract async `run`/`execute` methods, `src/group_of_agents/mcp/client.py`, `src/group_of_agents/agents/base.py` and `examples/simple_workflow.py`: asynchronous, abstract or printing code with no state to specify.
- `backend/server.js`, `WorkflowManager.jsx`, `AgentManager.jsx` and `App.jsx`: HTTP handlers, file persistence, `fetch`, `window.confirm` and UI selection state.
- WorkflowBase.BaseWorkflow.Repr: the class name is a parameter, because Dafny has no run-time class names.
