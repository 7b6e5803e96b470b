/** Plans: steps whose ids are the nodes of a valid graph. */
module Plans {
  import opened Wrappers
  import opened Ids
  import opened Digraphs
  import opened Whitespace
  import opened JsonValues
  import opened DagContracts

  datatype StepStatus = Pending | Running | Completed | Failed | Skipped

  datatype StepAction =
    | ToolCall(toolName: string, args: Json)
    | Prompt(text: string)
    | Checkpoint(checkpointLabel: string)

  datatype PlanStep = PlanStep(
    id: Id,
    description: string,
    action: StepAction,
    status: StepStatus,
    dependsOn: seq<Id>,
    output: Option<string>,
    error: Option<string>)

  datatype PlanError =
    | InvalidDag(dagError: DagError)
    | EmptyStepId
    | DuplicateStepId(id: Id)
    | StepsDoNotMatchNodes(missing: set<Id>, extra: set<Id>)
    | EmptyPlan

  ghost function StepIds(steps: seq<PlanStep>): set<Id> {
    set s | s in steps :: s.id
  }

  ghost predicate StepsOk(steps: seq<PlanStep>) {
    && (forall i | 0 <= i < |steps| :: !Blank(steps[i].id))
    && forall i, j | 0 <= i < j < |steps| :: steps[i].id != steps[j].id
  }

  ghost predicate ValidPlan(steps: seq<PlanStep>, dag: DagContract) {
    dag.Valid() && StepsOk(steps) && StepIds(steps) == dag.V()
  }

  /** `e` says why the parts do not make a plan; the first offending step is named. */
  ghost predicate RejectsPlan(e: PlanError, steps: seq<PlanStep>, dag: DagContract) {
    match e
    case InvalidDag(d) =>
      dag.Diagnoses(d)
    case EmptyStepId =>
      dag.Valid() && exists i :: 0 <= i < |steps| && StepsOk(steps[..i]) && Blank(steps[i].id)
    case DuplicateStepId(id) =>
      dag.Valid() && !Blank(id)
      && exists i :: 0 <= i < |steps| && StepsOk(steps[..i]) && steps[i].id == id && id in StepIds(steps[..i])
    case StepsDoNotMatchNodes(missing, extra) =>
      dag.Valid() && StepsOk(steps)
      && missing == dag.V() - StepIds(steps) && extra == StepIds(steps) - dag.V() && missing + extra != {}
    case EmptyPlan =>
      false
  }

  /** The position of each id; of equal ids the last one counts, as when a map is collected from pairs. */
  function IndexOf(steps: seq<PlanStep>): map<Id, nat> {
    if |steps| == 0 then map[]
    else IndexOf(steps[..|steps| - 1])[steps[|steps| - 1].id := |steps| - 1]
  }

  lemma {:induction false} IndexOfFindsSteps(steps: seq<PlanStep>)
    ensures IndexOf(steps).Keys == StepIds(steps)
    ensures forall id | id in IndexOf(steps) :: IndexOf(steps)[id] < |steps| && steps[IndexOf(steps)[id]].id == id
  {
    if |steps| > 0 {
      var init, last := steps[..|steps| - 1], steps[|steps| - 1];
      IndexOfFindsSteps(init);
      assert steps == init + [last];
      assert forall s :: s in steps <==> s in init || s == last;
      forall id | id in IndexOf(steps) ensures IndexOf(steps)[id] < |steps| && steps[IndexOf(steps)[id]].id == id {
        if id != last.id {
          assert id in IndexOf(init);
        }
      }
    }
  }

  lemma StepAccepted(steps: seq<PlanStep>, k: nat)
    requires k < |steps| && StepsOk(steps[..k]) && !Blank(steps[k].id) && steps[k].id !in StepIds(steps[..k])
    ensures StepsOk(steps[..k + 1]) && StepIds(steps[..k + 1]) == StepIds(steps[..k]) + {steps[k].id}
  {
    var longer := steps[..k + 1];
    assert longer == steps[..k] + [steps[k]];
    forall i | 0 <= i < k ensures longer[i].id != steps[k].id {
      assert steps[..k][i] in steps[..k];
    }
  }

  lemma StepRepeats(steps: seq<PlanStep>, k: nat)
    requires k < |steps| && steps[k].id in StepIds(steps[..k])
    ensures !StepsOk(steps)
  {
    var j :| 0 <= j < k && steps[..k][j].id == steps[k].id;
    assert steps[j].id == steps[k].id;
  }

  lemma NodeIdsAreNodes(dag: DagContract)
    ensures (set n | n in dag.nodes :: n.id) == dag.V()
  {
    dag.NodesBeforeMeaning(|dag.nodes|);
  }

  class Plan {
    const id: string
    const description: string
    var steps: seq<PlanStep>
    const dag: DagContract

    constructor (id: string, description: string, steps: seq<PlanStep>, dag: DagContract)
      ensures this.id == id && this.description == description && this.steps == steps && this.dag == dag
    {
      this.id, this.description, this.steps, this.dag := id, description, steps, dag;
    }

    /** `Plan::new`: a plan exactly when the parts are valid and match, with the parts unchanged. */
    static method New(id: string, description: string, steps: seq<PlanStep>, dag: DagContract)
      returns (r: Result<Plan, PlanError>)
      ensures r.Ok? <==> ValidPlan(steps, dag)
      ensures r.Ok? ==>
                && fresh(r.value) && r.value.id == id && r.value.description == description
                && r.value.steps == steps && r.value.dag == dag
      ensures r.Err? ==> RejectsPlan(r.error, steps, dag)
    {
      hide DagContract.Valid, DagContract.V, DagContract.Diagnoses, Blank;
      var valid := dag.Validate();
      if valid.Err? {
        return Err(InvalidDag(valid.error));
      }
      var stepIds: set<Id> := {};
      for k := 0 to |steps|
        invariant StepsOk(steps[..k]) && stepIds == StepIds(steps[..k])
      {
        var stepId := steps[k].id;
        assert steps[..k + 1] == steps[..k] + [steps[k]];
        if Blank(stepId) {
          return Err(EmptyStepId);
        }
        if stepId in stepIds {
          StepRepeats(steps, k);
          return Err(DuplicateStepId(stepId));
        }
        StepAccepted(steps, k);
        stepIds := stepIds + {stepId};
      }
      assert steps[..|steps|] == steps;
      var nodeIds := set n | n in dag.nodes :: n.id;
      NodeIdsAreNodes(dag);
      if stepIds != nodeIds {
        assert nodeIds - stepIds + (stepIds - nodeIds) != {} by {
          var x :| (x in stepIds && x !in nodeIds) || (x in nodeIds && x !in stepIds);
          assert x in nodeIds - stepIds + (stepIds - nodeIds);
        }
        return Err(StepsDoNotMatchNodes(nodeIds - stepIds, stepIds - nodeIds));
      }
      var plan := new Plan(id, description, steps, dag);
      return Ok(plan);
    }

    method ExecutionOrder() returns (r: Result<seq<Id>, DagError>)
      ensures r.Ok? <==> dag.Valid()
      ensures r.Ok? ==> IsLeastTopologicalOrder(dag.V(), dag.E(), r.value)
      ensures r.Err? ==> dag.Diagnoses(r.error)
    {
      r := dag.TopologicalSort();
    }
  }
}
