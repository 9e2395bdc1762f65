/** The workflow editor's step list: adding a blank step, removing one and renumbering the rest,
    replacing the agent or action of one step, and replacing its dependency list with what
    the dependency text box reads. Renumbering rewrites `order` only: dependency entries keep
    the numbers they had, even when those numbers now name a different step. */
module WorkflowForm {
  import opened Wrappers
  import opened Entities
  import opened Lists
  import DependencyText
  import WorkflowCanvas

  /** The form's state (`formData`). */
  datatype FormData = FormData(name: string, description: string, workflowDescription: string, steps: seq<Step>)

  /** The step fields the editor's inputs write through `handleStepChange`. */
  datatype StepField = AgentIdField | ActionField

  const Blank: FormData := FormData("", "", "", [])

  /** Orders run 1, 2, ..., N along the list. */
  predicate Dense(steps: seq<Step>) {
    forall i :: 0 <= i < |steps| ==> steps[i].order == i + 1
  }

  /** a and b agree on everything but `order`. */
  predicate SameButOrder(a: Step, b: Step) {
    a.id == b.id && a.agentId == b.agentId && a.action == b.action && a.dependencies == b.dependencies
  }

  /** The form's state after loading a workflow record: every missing field reads as empty. */
  function FromWorkflow(w: Workflow): (d: FormData)
    ensures w.name.Some? ==> d.name == w.name.value
    ensures w.name.None? ==> d.name == ""
    ensures w.description.Some? ==> d.description == w.description.value
    ensures w.description.None? ==> d.description == ""
    ensures w.workflowDescription.Some? ==> d.workflowDescription == w.workflowDescription.value
    ensures w.workflowDescription.None? ==> d.workflowDescription == ""
    ensures w.steps.Some? ==> d.steps == w.steps.value
    ensures w.steps.None? ==> d.steps == []
  {
    FormData(OrElse(w.name, ""), OrElse(w.description, ""), OrElse(w.workflowDescription, ""), OrElse(w.steps, []))
  }

  // ---------------------------------------------------------------- adding

  /** The step list with one blank step appended; its order is one past the old length. The new
      step's id comes from the caller (the editor takes it from the clock). */
  function AddStep(steps: seq<Step>, id: string): (r: seq<Step>)
    ensures |r| == |steps| + 1 && r[..|steps|] == steps
    ensures r[|steps|] == Step(id, "", "", |steps| + 1, [])
  {
    steps + [Step(id, "", "", |steps| + 1, [])]
  }

  /** Adding a step to a list numbered 1..N gives a list numbered 1..N+1. */
  lemma AddStepKeepsDense(steps: seq<Step>, id: string)
    requires Dense(steps)
    ensures Dense(AddStep(steps, id))
  {
    var r := AddStep(steps, id);
    forall i | 0 <= i < |r| ensures r[i].order == i + 1 {
      if i < |steps| {
        assert r[i] == r[..|steps|][i];
      }
    }
  }

  // ---------------------------------------------------------------- removing

  /** Every step renumbered by its position; nothing else about it changes. */
  function Renumbered(steps: seq<Step>): (r: seq<Step>)
    ensures |r| == |steps| && Dense(r)
    ensures forall i :: 0 <= i < |steps| ==> SameButOrder(r[i], steps[i])
  {
    seq(|steps|, i requires 0 <= i < |steps| => steps[i].(order := i + 1))
  }

  /** The renumbering loop (`newSteps.forEach((step, i) => { step.order = i + 1; })`). */
  method Renumber(steps: seq<Step>) returns (r: seq<Step>)
    ensures r == Renumbered(steps)
  {
    r := steps;
    var i := 0;
    while i < |r|
      invariant 0 <= i <= |r| == |steps|
      invariant forall k :: 0 <= k < i ==> r[k] == steps[k].(order := k + 1)
      invariant forall k :: i <= k < |r| ==> r[k] == steps[k]
    {
      r := r[i := r[i].(order := i + 1)];
      i := i + 1;
    }
  }

  /** The step list with the step at index dropped and the rest renumbered 1..N-1. An index
      outside the list drops nothing, and the list is still renumbered 1..N. */
  function RemoveStep(steps: seq<Step>, index: int): (r: seq<Step>)
    ensures Dense(r)
    ensures 0 <= index < |steps| ==> |r| == |steps| - 1
    ensures 0 <= index < |steps| ==>
      forall i :: 0 <= i < |r| ==> SameButOrder(r[i], steps[if i < index then i else i + 1])
    ensures !(0 <= index < |steps|) ==> |r| == |steps|
    ensures !(0 <= index < |steps|) ==> forall i :: 0 <= i < |r| ==> SameButOrder(r[i], steps[i])
  {
    assert 0 <= index < |steps| ==>
      && |Without(steps, index)| == |steps| - 1
      && forall i :: 0 <= i < |steps| - 1 ==> Without(steps, index)[i] == steps[if i < index then i else i + 1]
    by {
      if 0 <= index < |steps| {
        WithoutAt(steps, index);
      }
    }
    Renumbered(Without(steps, index))
  }

  /** The dependency lists of the steps, in step order. */
  function DependencyLists(steps: seq<Step>): (r: seq<seq<int>>)
    ensures |r| == |steps| && forall i :: 0 <= i < |steps| ==> r[i] == steps[i].dependencies
  {
    seq(|steps|, i requires 0 <= i < |steps| => steps[i].dependencies)
  }

  /** Removing a step leaves every surviving step's dependency entries as they were: none is
      remapped to the new numbering and none that named the removed step is dropped. */
  lemma RemoveStepKeepsDependencies(steps: seq<Step>, index: int)
    ensures 0 <= index < |steps| ==>
      DependencyLists(RemoveStep(steps, index)) == DependencyLists(steps)[..index] + DependencyLists(steps)[index + 1..]
    ensures !(0 <= index < |steps|) ==> DependencyLists(RemoveStep(steps, index)) == DependencyLists(steps)
  {
  }

  /** What that means for the graph: in steps a(1), b(2), c(3) where c depends on 2, removing a
      renumbers b to 1 and c to 2, and c's unchanged entry 2 now names c itself, so the canvas
      draws a self-loop on c instead of the edge b -> c. */
  lemma StaleDependencyAfterRemove()
    ensures var steps := [Step("a", "", "", 1, []), Step("b", "", "", 2, []), Step("c", "", "", 3, [2])];
      var r := RemoveStep(steps, 0);
      && WorkflowCanvas.EdgesOf(steps, steps) == [WorkflowCanvas.Edge("b-c", "b", "c")]
      && WorkflowCanvas.EdgesOf(r, r) == [WorkflowCanvas.Edge("c-c", "c", "c")]
  {
    var a, b, c := Step("a", "", "", 1, []), Step("b", "", "", 2, []), Step("c", "", "", 3, [2]);
    var steps := [a, b, c];
    var r := RemoveStep(steps, 0);
    var b', c' := b.(order := 1), c.(order := 2);
    assert r == [b', c'];
    assert "b" + "-" + "c" == "b-c" && "c" + "-" + "c" == "c-c";
    assert WorkflowCanvas.SourceIndex(steps, 2) == Some(1);
    assert WorkflowCanvas.SourceIndex(r, 2) == Some(1);
    assert WorkflowCanvas.DepEdges(steps, [2], c) == [WorkflowCanvas.Edge("b-c", "b", "c")] by {
      assert [2][..0] == [];
    }
    assert WorkflowCanvas.DepEdges(r, [2], c') == [WorkflowCanvas.Edge("c-c", "c", "c")] by {
      assert [2][..0] == [];
    }
    WorkflowCanvas.NoDependenciesNoEdges(steps, steps[..2]);
    WorkflowCanvas.NoDependenciesNoEdges(r, r[..1]);
    assert WorkflowCanvas.EdgesOf(steps, steps) ==
      WorkflowCanvas.EdgesOf(steps, steps[..2]) + WorkflowCanvas.DepEdges(steps, [2], c);
    assert WorkflowCanvas.EdgesOf(r, r) == WorkflowCanvas.EdgesOf(r, r[..1]) + WorkflowCanvas.DepEdges(r, [2], c');
  }

  // ---------------------------------------------------------------- changing one step

  /** The step list with the agent or the action of the step at index replaced by value. */
  function ChangeStep(steps: seq<Step>, index: int, field: StepField, value: string): (r: seq<Step>)
    requires 0 <= index < |steps|
    ensures |r| == |steps|
    ensures forall i :: 0 <= i < |steps| && i != index ==> r[i] == steps[i]
    ensures r[index].id == steps[index].id && r[index].order == steps[index].order
    ensures r[index].dependencies == steps[index].dependencies
    ensures field == AgentIdField ==> r[index].agentId == value && r[index].action == steps[index].action
    ensures field == ActionField ==> r[index].action == value && r[index].agentId == steps[index].agentId
  {
    var s := steps[index];
    steps[index := match field case AgentIdField => s.(agentId := value) case ActionField => s.(action := value)]
  }

  /** The step list with the dependency list of the step at index replaced by deps. */
  function SetDependencies(steps: seq<Step>, index: int, deps: seq<int>): (r: seq<Step>)
    requires 0 <= index < |steps|
    ensures |r| == |steps|
    ensures forall i :: 0 <= i < |steps| && i != index ==> r[i] == steps[i]
    ensures SameButDependencies(r[index], steps[index]) && r[index].dependencies == deps
  {
    steps[index := steps[index].(dependencies := deps)]
  }

  predicate SameButDependencies(a: Step, b: Step) {
    a.id == b.id && a.agentId == b.agentId && a.action == b.action && a.order == b.order
  }

  /** Changing a field never disturbs the numbering. */
  lemma ChangesKeepDense(steps: seq<Step>, index: int, field: StepField, value: string, deps: seq<int>)
    requires 0 <= index < |steps| && Dense(steps)
    ensures Dense(ChangeStep(steps, index, field, value))
    ensures Dense(SetDependencies(steps, index, deps))
  {
  }

  /** What the dependency box shows for the step at index. */
  function ShownDependencies(steps: seq<Step>, index: int): (text: string)
    requires 0 <= index < |steps|
    ensures text == [] <==> steps[index].dependencies == []
    ensures DependencyText.Parse(text) == steps[index].dependencies
  {
    DependencyText.ParseJoin(steps[index].dependencies);
    DependencyText.Join(steps[index].dependencies)
  }

  /** Typing text into the dependency box of the step at index. */
  function EditDependencies(steps: seq<Step>, index: int, text: string): (r: seq<Step>)
    requires 0 <= index < |steps|
    ensures |r| == |steps|
    ensures forall i :: 0 <= i < |steps| && i != index ==> r[i] == steps[i]
    ensures SameButDependencies(r[index], steps[index])
    ensures r[index].dependencies == DependencyText.Parse(text)
    ensures text == [] ==> r[index].dependencies == []
  {
    SetDependencies(steps, index, DependencyText.Parse(text))
  }

  /** Committing the text the box shows leaves the step list exactly as it was. */
  lemma EditShownTextChangesNothing(steps: seq<Step>, index: int)
    requires 0 <= index < |steps|
    ensures EditDependencies(steps, index, ShownDependencies(steps, index)) == steps
  {
    assert EditDependencies(steps, index, ShownDependencies(steps, index))[index] == steps[index];
  }

  // ---------------------------------------------------------------- the editor

  /** The editor component: `data` is its form state, each handler replaces it as a whole. */
  class Editor {
    var data: FormData

    /** A new editor starts from an empty form. */
    constructor ()
      ensures data == Blank
    {
      data := Blank;
    }

    /** The effect run when the edited workflow changes: a present workflow replaces the form
        state, an absent one leaves it alone. */
    method Load(workflow: Option<Workflow>)
      modifies this
      ensures workflow.None? ==> data == old(data)
      ensures workflow.Some? ==> data == FromWorkflow(workflow.value)
    {
      if workflow.Some? {
        data := FromWorkflow(workflow.value);
      }
    }

    /** `handleAddStep`, with the new step's id passed in. */
    method HandleAddStep(id: string)
      modifies this
      ensures data == old(data).(steps := AddStep(old(data).steps, id))
    {
      data := data.(steps := data.steps + [Step(id, "", "", |data.steps| + 1, [])]);
    }

    /** `handleRemoveStep`: filter out the step at index, then renumber the survivors. */
    method HandleRemoveStep(index: int)
      modifies this
      ensures data == old(data).(steps := RemoveStep(old(data).steps, index))
    {
      var newSteps := Without(data.steps, index);
      newSteps := Renumber(newSteps);
      data := data.(steps := newSteps);
    }

    /** `handleStepChange`. An index outside the list throws in the editor, so none is passed. */
    method HandleStepChange(index: int, field: StepField, value: string)
      requires 0 <= index < |data.steps|
      modifies this
      ensures data == old(data).(steps := ChangeStep(old(data).steps, index, field, value))
    {
      var newSteps := data.steps;
      var step := newSteps[index];
      match field {
        case AgentIdField => step := step.(agentId := value);
        case ActionField => step := step.(action := value);
      }
      newSteps := newSteps[index := step];
      data := data.(steps := newSteps);
    }

    /** `handleDependencyChange`. */
    method HandleDependencyChange(index: int, deps: seq<int>)
      requires 0 <= index < |data.steps|
      modifies this
      ensures data == old(data).(steps := SetDependencies(old(data).steps, index, deps))
    {
      var newSteps := data.steps;
      newSteps := newSteps[index := newSteps[index].(dependencies := deps)];
      data := data.(steps := newSteps);
    }

    /** The dependency box's change handler: parse the typed text, then `handleDependencyChange`. */
    method OnDependencyTextChange(index: int, text: string)
      requires 0 <= index < |data.steps|
      modifies this
      ensures data == old(data).(steps := EditDependencies(old(data).steps, index, text))
    {
      HandleDependencyChange(index, DependencyText.Parse(text));
    }
  }
}
