/** Running a plan in its execution order, pruning everything downstream of a failed step. */
module PlanExecution {
  import opened Wrappers
  import opened Ids
  import opened Digraphs
  import opened Reachability
  import opened DagContracts
  import opened Plans
  import opened PlanParsing

  datatype StepOutput = StepOutput(success: bool, output: string, error: Option<string>)

  /** The step runner: any outcome at all for the n-th call, so a runner with state of its own is covered. */
  type StepRunner = (nat, PlanStep) -> Result<StepOutput, string>

  datatype ExecutionReport = ExecutionReport(
    planId: string,
    completedSteps: seq<Id>,
    failedSteps: seq<Id>,
    skippedSteps: seq<Id>,
    success: bool)

  // ---- the search below a failed step ----

  ghost function EdgesOf(downstream: map<Id, set<Id>>): Edges {
    set a, b | a in downstream && b in downstream[a] :: (a, b)
  }

  /** Everything found so far is downstream of the root and new; what has left the queue has all its children in. */
  ghost predicate SearchState(
    E: Edges, before: set<Id>, root: Id, queue: seq<Id>, skipped: set<Id>, current: Id, children: set<Id>)
  {
    && before <= skipped
    && (forall v | v in skipped && v !in before :: ReachesAvoiding(E, before, root, v))
    && (forall q | q in queue :: q == root || (q in skipped && q !in before))
    && (forall u, w | (u, w) in E && (u == root || (u in skipped && u !in before)) && u !in queue ::
          w in skipped || (u == current && w in children))
  }

  lemma VisitChild(
    E: Edges, before: set<Id>, root: Id, queue: seq<Id>, skipped: set<Id>, current: Id, children: set<Id>, child: Id)
    requires SearchState(E, before, root, queue, skipped, current, children)
    requires current == root || (current in skipped && current !in before)
    requires (current, child) in E
    ensures child in skipped ==> SearchState(E, before, root, queue, skipped, current, children - {child})
    ensures child !in skipped ==>
              SearchState(E, before, root, queue + [child], skipped + {child}, current, children - {child})
  {
    if child !in skipped {
      if current == root {
        EdgeReachesAvoiding(E, before, root, child);
      }
      if current in skipped && current !in before {
        AvoidingThenEdge(E, before, root, current, child);
      }
    }
  }

  /** Taking a node off the queue leaves its own successors open. */
  lemma StartNode(E: Edges, before: set<Id>, root: Id, queue: seq<Id>, skipped: set<Id>, current: Id)
    requires SearchState(E, before, root, queue, skipped, current, {}) && |queue| > 0
    ensures queue[0] == root || (queue[0] in skipped && queue[0] !in before)
    ensures SearchState(E, before, root, queue[1..], skipped, queue[0], set e | e in E && e.0 == queue[0] :: e.1)
  {
    assert queue == [queue[0]] + queue[1..];
    forall u, w | (u, w) in E && u == queue[0] ensures w in set e | e in E && e.0 == queue[0] :: e.1 {
      assert (u, w).0 == queue[0];
    }
  }

  lemma OpenSuccessors(downstream: map<Id, set<Id>>, current: Id)
    ensures (set e | e in EdgesOf(downstream) && e.0 == current :: e.1)
            == if current in downstream then downstream[current] else {}
  {
    if current in downstream {
      forall w | w in downstream[current] ensures w in set e | e in EdgesOf(downstream) && e.0 == current :: e.1 {
        assert (current, w) in EdgesOf(downstream) && (current, w).1 == w;
      }
    }
  }

  lemma LeaveChild(children: seq<Id>, k: nat)
    requires k < |children| && forall i, j | 0 <= i < j < |children| :: Less(children[i], children[j])
    ensures Elements(children[k + 1..]) == Elements(children[k..]) - {children[k]}
  {
    forall j | k < j < |children| ensures children[j] != children[k] {
      LessIsAsymmetric(children[k], children[j]);
    }
    assert children[k..] == [children[k]] + children[k + 1..];
  }

  lemma SearchComplete(E: Edges, before: set<Id>, root: Id, skipped: set<Id>, current: Id)
    requires SearchState(E, before, root, [], skipped, current, {})
    ensures forall v :: v in skipped <==> v in before || ReachesAvoiding(E, before, root, v)
  {
    forall v | ReachesAvoiding(E, before, root, v) ensures v in skipped {
      var p :| IsWalkAvoiding(E, before, p, root, v);
      AvoidingStaysIn(E, before, skipped, p, |p| - 1);
    }
  }

  /** Adds to the skip set what is reached from the root without passing through ids already in it. */
  method MarkDownstreamSkipped(root: Id, downstream: map<Id, set<Id>>, skippedIds: set<Id>)
    returns (skipped: set<Id>)
    ensures forall v :: v in skipped <==> v in skippedIds || ReachesAvoiding(EdgesOf(downstream), skippedIds, root, v)
  {
    ghost var E := EdgesOf(downstream);
    ghost var targets := set e | e in E :: e.1;
    var queue := [root];
    var current := root;
    skipped := skippedIds;
    while |queue| > 0
      invariant SearchState(E, skippedIds, root, queue, skipped, current, {})
      decreases targets - skipped, |queue|
    {
      hide SearchState;
      ghost var outside, length := targets - skipped, |queue|;
      StartNode(E, skippedIds, root, queue, skipped, current);
      OpenSuccessors(downstream, queue[0]);
      current := queue[0];
      queue := queue[1..];
      if current in downstream {
        var children := InOrder(downstream[current]);
        assert Elements(children) == downstream[current] && children[0..] == children;
        for k := 0 to |children|
          invariant SearchState(E, skippedIds, root, queue, skipped, current, Elements(children[k..]))
          invariant current == root || (current in skipped && current !in skippedIds)
          invariant targets - skipped < outside || (targets - skipped == outside && |queue| < length)
        {
          var child := children[k];
          assert child in downstream[current] && (current, child) in E && (current, child).1 in targets;
          VisitChild(E, skippedIds, root, queue, skipped, current, Elements(children[k..]), child);
          LeaveChild(children, k);
          if child !in skipped {
            skipped := skipped + {child};
            queue := queue + [child];
          }
        }
        assert Elements(children[|children|..]) == {};
      }
    }
    SearchComplete(E, skippedIds, root, skipped, current);
  }

  // ---- one run of a plan ----

  /** A step handed to the runner: the steps as they stood at that moment, and what came back. */
  datatype Call = Call(step: PlanStep, steps: seq<PlanStep>, output: StepOutput)

  /** The ids at the positions whose outcome is `status`, in order. */
  ghost function Select(order: seq<Id>, outcomes: seq<StepStatus>, status: StepStatus): seq<Id>
    requires |outcomes| <= |order|
  {
    if |outcomes| == 0 then []
    else
      var n := |outcomes| - 1;
      if outcomes[n] == status then Select(order, outcomes[..n], status) + [order[n]] else Select(order, outcomes[..n], status)
  }

  ghost predicate SameExceptResult(before: PlanStep, after: PlanStep) {
    before.(status := after.status, output := after.output, error := after.error) == after
  }

  /** Every step that has an edge to `id` is stored as completed. */
  ghost predicate PredecessorsCompleted(E: Edges, steps: seq<PlanStep>, id: Id) {
    forall s | s in steps && (s.id, id) in E :: s.status == Completed
  }

  /** What the outcome of a call leaves in the step. */
  ghost predicate Records(step: PlanStep, output: StepOutput) {
    && step.status == (if output.success then Completed else Failed)
    && step.output == Some(output.output)
    && step.error == if output.success then None else output.error
  }

  /** `outcomes` are the results for a prefix of `order`, and the steps hold them; later steps are as before. */
  ghost predicate Holds(index: map<Id, nat>, order: seq<Id>, before: seq<PlanStep>, after: seq<PlanStep>, outcomes: seq<StepStatus>) {
    && SameSteps(before, after) && |outcomes| <= |order|
    && (forall id | id in order :: id in index && index[id] < |before|)
    && (forall k | 0 <= k < |outcomes| ::
          after[index[order[k]]].status == outcomes[k] && outcomes[k] in {Completed, Failed, Skipped})
    && (forall k | 0 <= k < |outcomes| && outcomes[k] == Skipped ::
          after[index[order[k]]] == before[index[order[k]]].(status := Skipped))
    && forall k | |outcomes| <= k < |order| :: after[index[order[k]]] == before[index[order[k]]]
  }

  /** The skip set is what the failures so far reach, and the skipped ones are exactly those already passed. */
  ghost predicate PrunesDownstream(E: Edges, order: seq<Id>, outcomes: seq<StepStatus>, skippedIds: set<Id>) {
    && |outcomes| <= |order|
    && (forall v :: v in skippedIds <==>
          exists k :: 0 <= k < |outcomes| && outcomes[k] == Failed && Reaches(E, order[k], v))
    && forall k | 0 <= k < |outcomes| :: outcomes[k] == Skipped <==> order[k] in skippedIds
  }

  ghost predicate SameSteps(before: seq<PlanStep>, after: seq<PlanStep>) {
    |after| == |before| && forall j | 0 <= j < |after| :: SameExceptResult(before[j], after[j])
  }

  /** The n-th call as the runner saw it: the step marked running, every predecessor completed. */
  ghost predicate ProperCall(E: Edges, runner: StepRunner, before: seq<PlanStep>, n: nat, call: Call) {
    && runner(n, call.step) == Ok(call.output)
    && call.step.status == Running && call.step in call.steps
    && SameSteps(before, call.steps)
    && PredecessorsCompleted(E, call.steps, call.step.id)
  }

  /** The steps as they stood when the k-th of the order was called: what came before as it is stored for good, the rest as at first. */
  ghost predicate SeesStore(
    index: map<Id, nat>, order: seq<Id>, before: seq<PlanStep>, after: seq<PlanStep>, k: nat, steps: seq<PlanStep>)
  {
    && |steps| == |before| == |after| && (forall id | id in order :: id in index && index[id] < |before|)
    && forall j | 0 <= j < |order| ::
         var at := index[order[j]];
         steps[at] == if j < k then after[at] else if j == k then before[at].(status := Running) else before[at]
  }

  /** The skipped ones of the positions passed are those that a failure among them reaches. */
  ghost predicate SkipsBelowFailures(E: Edges, order: seq<Id>, outcomes: seq<StepStatus>) {
    && |outcomes| <= |order|
    && forall k | 0 <= k < |outcomes| :: outcomes[k] == Skipped <==> BelowFailure(E, order, outcomes, order[k])
  }

  ghost predicate BelowFailure(E: Edges, order: seq<Id>, outcomes: seq<StepStatus>, id: Id)
    requires |outcomes| <= |order|
  {
    exists m :: 0 <= m < |outcomes| && outcomes[m] == Failed && Reaches(E, order[m], id)
  }

  lemma PruningIsBelowFailures(E: Edges, order: seq<Id>, outcomes: seq<StepStatus>, skippedIds: set<Id>)
    requires PrunesDownstream(E, order, outcomes, skippedIds)
    ensures SkipsBelowFailures(E, order, outcomes)
    ensures forall id :: id in skippedIds <==> BelowFailure(E, order, outcomes, id)
  {
    hide Reaches;
  }

  /** The calls made are those for the positions that were not skipped, and their results are in the steps. */
  ghost predicate CallsMade(
    E: Edges, runner: StepRunner, order: seq<Id>, outcomes: seq<StepStatus>,
    index: map<Id, nat>, before: seq<PlanStep>, after: seq<PlanStep>, calls: seq<Call>)
  {
    && |outcomes| <= |order|
    && (forall id | id in order :: id in index && index[id] < |after|)
    && (forall n | 0 <= n < |calls| :: ProperCall(E, runner, before, n, calls[n]))
    && (forall n | 0 <= n < |calls| ::
          calls[n].step.id in order[..|outcomes|] && Records(after[index[calls[n].step.id]], calls[n].output))
    && CalledIds(calls) == Called(order, outcomes)
    && forall n, k | 0 <= n < |calls| && 0 <= k < |outcomes| && order[k] == calls[n].step.id ::
         SeesStore(index, order, before, after, k, calls[n].steps)
  }

  ghost function CalledIds(calls: seq<Call>): seq<Id> {
    seq(|calls|, n requires 0 <= n < |calls| => calls[n].step.id)
  }

  /** The ids at the positions that were not skipped, in order. */
  ghost function Called(order: seq<Id>, outcomes: seq<StepStatus>): seq<Id>
    requires |outcomes| <= |order|
  {
    if |outcomes| == 0 then []
    else
      var n := |outcomes| - 1;
      if outcomes[n] == Skipped then Called(order, outcomes[..n]) else Called(order, outcomes[..n]) + [order[n]]
  }

  /** Each id of the order has its own step, found through the index. */
  ghost predicate Locates(index: map<Id, nat>, order: seq<Id>, steps: seq<PlanStep>) {
    && Distinct(order)
    && (forall id | id in order :: id in index && index[id] < |steps| && steps[index[id]].id == id)
    && forall j | 0 <= j < |steps| :: steps[j].id in order && index[steps[j].id] == j
  }

  lemma ValidPlanLocates(dag: DagContract, steps: seq<PlanStep>, order: seq<Id>)
    requires ValidPlan(steps, dag) && IsTopologicalOrder(dag.V(), dag.E(), order)
    ensures Locates(IndexOf(steps), order, steps)
  {
    IndexOfFindsSteps(steps);
    assert forall id :: id in order <==> id in StepIds(steps);
    forall j | 0 <= j < |steps| ensures steps[j].id in order && IndexOf(steps)[steps[j].id] == j {
      assert steps[j] in steps;
      assert steps[j].id in StepIds(steps);
    }
  }

  lemma Advance(index: map<Id, nat>, order: seq<Id>, before: seq<PlanStep>, after: seq<PlanStep>, outcomes: seq<StepStatus>, step: PlanStep)
    requires Holds(index, order, before, after, outcomes) && Locates(index, order, before)
    requires |outcomes| < |order|
    requires SameExceptResult(before[index[order[|outcomes|]]], step) && step.status in {Completed, Failed, Skipped}
    requires step.status == Skipped ==> step == before[index[order[|outcomes|]]].(status := Skipped)
    ensures Holds(index, order, before, after[index[order[|outcomes|]] := step], outcomes + [step.status])
  {
    var i := |outcomes|;
    forall k | 0 <= k < |order| && k != i ensures index[order[k]] != index[order[i]] {
      assert before[index[order[k]]].id == order[k];
      assert order[k] in order && order[i] in order;
    }
  }

  lemma ReachesLater(V: set<Id>, E: Edges, order: seq<Id>, k: nat, j: nat)
    requires IsTopologicalOrder(V, E, order) && Within(E, V)
    requires k < |order| && j < |order| && Reaches(E, order[k], order[j])
    ensures k < j
  {
    var p :| IsWalkFromTo(E, p, order[k], order[j]);
    var m, n := WalkGoesForward(V, E, order, p);
  }

  /** A step that is not pruned has only completed predecessors: a failed or skipped one would have pruned it. */
  lemma ReadyToRun(
    V: set<Id>, E: Edges, index: map<Id, nat>, order: seq<Id>, before: seq<PlanStep>, after: seq<PlanStep>,
    outcomes: seq<StepStatus>, skippedIds: set<Id>)
    requires IsTopologicalOrder(V, E, order) && Within(E, V) && Locates(index, order, before)
    requires Holds(index, order, before, after, outcomes)
    requires PrunesDownstream(E, order, outcomes, skippedIds) && ClosedUnder(E, skippedIds)
    requires |outcomes| < |order| && order[|outcomes|] !in skippedIds
    ensures var id := order[|outcomes|];
            PredecessorsCompleted(E, after[index[id] := after[index[id]].(status := Running)], id)
  {
    var i, id := |outcomes|, order[|outcomes|];
    var running := after[index[id] := after[index[id]].(status := Running)];
    forall s | s in running && (s.id, id) in E ensures s.status == Completed {
      var j :| 0 <= j < |running| && running[j] == s;
      assert SameExceptResult(before[j], after[j]);
      assert before[j].id == s.id;
      var k :| 0 <= k < |order| && order[k] == s.id;
      assert k < i;
      assert index[order[k]] == j && after[j].status == outcomes[k];
      if outcomes[k] == Failed {
        EdgeReaches(E, order[k], id);
      }
    }
  }

  lemma PruneNothing(E: Edges, order: seq<Id>, outcomes: seq<StepStatus>, skippedIds: set<Id>, status: StepStatus)
    requires PrunesDownstream(E, order, outcomes, skippedIds) && |outcomes| < |order|
    requires status == if order[|outcomes|] in skippedIds then Skipped else Completed
    ensures PrunesDownstream(E, order, outcomes + [status], skippedIds)
  {
    hide Reaches;
    var longer := outcomes + [status];
    forall v ensures v in skippedIds <==>
                     exists k :: 0 <= k < |longer| && longer[k] == Failed && Reaches(E, order[k], v) {
      if k :| 0 <= k < |outcomes| && outcomes[k] == Failed && Reaches(E, order[k], v) {
        assert longer[k] == Failed;
      }
    }
  }

  lemma PruneBelow(
    V: set<Id>, E: Edges, order: seq<Id>, outcomes: seq<StepStatus>, skippedIds: set<Id>, pruned: set<Id>)
    requires IsTopologicalOrder(V, E, order) && Within(E, V)
    requires PrunesDownstream(E, order, outcomes, skippedIds) && ClosedUnder(E, skippedIds)
    requires |outcomes| < |order| && order[|outcomes|] !in skippedIds
    requires forall v :: v in pruned <==> v in skippedIds || ReachesAvoiding(E, skippedIds, order[|outcomes|], v)
    ensures PrunesDownstream(E, order, outcomes + [Failed], pruned) && ClosedUnder(E, pruned)
  {
    var i, longer := |outcomes|, outcomes + [Failed];
    forall v ensures v in pruned <==> v in skippedIds || Reaches(E, order[i], v) {
      AvoidingClosedSet(E, skippedIds, order[i], v);
    }
    ReachKeepsClosed(E, skippedIds, pruned, order[i]);
    forall v ensures v in pruned <==>
                     exists k :: 0 <= k < |longer| && longer[k] == Failed && Reaches(E, order[k], v) {
      if v in skippedIds {
        var k :| 0 <= k < |outcomes| && outcomes[k] == Failed && Reaches(E, order[k], v);
        assert longer[k] == Failed;
      } else if Reaches(E, order[i], v) {
        assert longer[i] == Failed;
      }
    }
    forall k | 0 <= k < |longer| ensures longer[k] == Skipped <==> order[k] in pruned {
      if Reaches(E, order[i], order[k]) {
        ReachesLater(V, E, order, i, k);
      }
    }
  }

  lemma AddCall(
    E: Edges, runner: StepRunner, index: map<Id, nat>, order: seq<Id>, before: seq<PlanStep>, after: seq<PlanStep>,
    outcomes: seq<StepStatus>, calls: seq<Call>, call: Call, step: PlanStep)
    requires CallsMade(E, runner, order, outcomes, index, before, after, calls) && Locates(index, order, before)
    requires |outcomes| < |order| && call.step.id == order[|outcomes|] && |after| == |before|
    requires ProperCall(E, runner, before, |calls|, call) && Records(step, call.output)
    requires Holds(index, order, before, after, outcomes)
    requires var at := index[order[|outcomes|]]; call.steps == after[at := after[at].(status := Running)]
    ensures CallsMade(E, runner, order, outcomes + [step.status], index, before,
                      after[index[order[|outcomes|]] := step], calls + [call])
  {
    hide SeesStore, Holds, ProperCall;
    CallSees(index, order, before, after, outcomes, step);
    KeepCalls(E, runner, index, order, before, after, outcomes, calls, step);
    var i, more, longer := |outcomes|, calls + [call], outcomes + [step.status];
    assert order[..i + 1][i] == order[i];
    assert longer[..i] == outcomes;
    assert CalledIds(more) == CalledIds(calls) + [order[i]];
  }

  /** Writing the step at the next position leaves the records of earlier calls alone. */
  lemma KeepCalls(
    E: Edges, runner: StepRunner, index: map<Id, nat>, order: seq<Id>, before: seq<PlanStep>, after: seq<PlanStep>,
    outcomes: seq<StepStatus>, calls: seq<Call>, step: PlanStep)
    requires CallsMade(E, runner, order, outcomes, index, before, after, calls) && Locates(index, order, before)
    requires |outcomes| < |order| && |after| == |before|
    ensures CallsMade(E, runner, order, outcomes, index, before, after[index[order[|outcomes|]] := step], calls)
    ensures step.status == Skipped ==>
              CallsMade(E, runner, order, outcomes + [Skipped], index, before,
                        after[index[order[|outcomes|]] := step], calls)
    ensures forall n | 0 <= n < |calls| ::
              calls[n].step.id in order[..|outcomes| + 1] && calls[n].step.id != order[|outcomes|]
              && Records(after[index[order[|outcomes|]] := step][index[calls[n].step.id]], calls[n].output)
  {
    hide SeesStore, ProperCall, Records;
    var i := |outcomes|;
    assert order[i] in order;
    forall n, k | 0 <= n < |calls| && 0 <= k < i && order[k] == calls[n].step.id
      ensures SeesStore(index, order, before, after[index[order[i]] := step], k, calls[n].steps)
    {
      KeepSight(index, order, before, after, k, calls[n].steps, i, step);
    }
    forall n | 0 <= n < |calls|
      ensures calls[n].step.id in order[..i + 1] && index[calls[n].step.id] != index[order[i]]
    {
      var k :| 0 <= k < i && order[..i][k] == calls[n].step.id;
      assert order[..i + 1][k] == order[k];
      assert order[k] in order && before[index[order[k]]].id == order[k];
    }
    assert (outcomes + [Skipped])[..i] == outcomes;
  }

  /** What a call saw of the steps before it is not written again. */
  lemma KeepSight(
    index: map<Id, nat>, order: seq<Id>, before: seq<PlanStep>, after: seq<PlanStep>, k: nat, steps: seq<PlanStep>,
    i: nat, step: PlanStep)
    requires SeesStore(index, order, before, after, k, steps) && Locates(index, order, before) && k <= i < |order|
    ensures SeesStore(index, order, before, after[index[order[i]] := step], k, steps)
  {
    forall j | 0 <= j < k ensures index[order[j]] != index[order[i]] {
      assert order[j] in order && order[i] in order;
    }
  }

  lemma CallSees(
    index: map<Id, nat>, order: seq<Id>, before: seq<PlanStep>, after: seq<PlanStep>, outcomes: seq<StepStatus>, step: PlanStep)
    requires Holds(index, order, before, after, outcomes) && Locates(index, order, before) && |outcomes| < |order|
    ensures order[|outcomes|] in index && index[order[|outcomes|]] < |after|
    ensures var at := index[order[|outcomes|]];
            SeesStore(index, order, before, after[at := step], |outcomes|, after[at := after[at].(status := Running)])
  {
    var i := |outcomes|;
    assert order[i] in order;
    forall j | 0 <= j < |order| && j != i ensures index[order[j]] != index[order[i]] {
      assert order[j] in order;
    }
  }

  // ---- what a run leaves behind ----

  lemma {:induction false} SelectSplits(order: seq<Id>, outcomes: seq<StepStatus>)
    requires |outcomes| <= |order| && forall k | 0 <= k < |outcomes| :: outcomes[k] in {Completed, Failed, Skipped}
    ensures multiset(Select(order, outcomes, Completed)) + multiset(Select(order, outcomes, Failed))
            + multiset(Select(order, outcomes, Skipped)) == multiset(order[..|outcomes|])
  {
    if |outcomes| > 0 {
      var n := |outcomes| - 1;
      SelectSplits(order, outcomes[..n]);
      assert order[..n + 1] == order[..n] + [order[n]];
      assert outcomes[n] in {Completed, Failed, Skipped};
    }
  }

  lemma {:induction false} SelectMembers(order: seq<Id>, outcomes: seq<StepStatus>, status: StepStatus)
    requires |outcomes| <= |order|
    ensures forall id :: id in Select(order, outcomes, status) <==>
                         exists k :: 0 <= k < |outcomes| && order[k] == id && outcomes[k] == status
  {
    if |outcomes| > 0 {
      var n := |outcomes| - 1;
      SelectMembers(order, outcomes[..n], status);
      forall id ensures id in Select(order, outcomes, status) <==>
                        exists k :: 0 <= k < |outcomes| && order[k] == id && outcomes[k] == status {
        if k :| 0 <= k < |outcomes| && order[k] == id && outcomes[k] == status {
          if k < n {
            assert outcomes[..n][k] == status;
          }
        }
      }
    }
  }

  /** The three lists are a partition of the plan's ids, each in execution order, and agree with the stored statuses. */
  ghost predicate ReportsOutcomes(report: ExecutionReport, order: seq<Id>, outcomes: seq<StepStatus>, steps: seq<PlanStep>) {
    && |outcomes| == |order|
    && report.completedSteps == Select(order, outcomes, Completed)
    && report.failedSteps == Select(order, outcomes, Failed)
    && report.skippedSteps == Select(order, outcomes, Skipped)
    && multiset(report.completedSteps) + multiset(report.failedSteps) + multiset(report.skippedSteps) == multiset(order)
    && (forall s | s in steps :: s.status in {Completed, Failed, Skipped})
    && (forall s | s in steps :: s.id in report.completedSteps <==> s.status == Completed)
    && (forall s | s in steps :: s.id in report.failedSteps <==> s.status == Failed)
    && (forall s | s in steps :: s.id in report.skippedSteps <==> s.status == Skipped)
    && (report.success <==> forall s | s in steps :: s.status != Failed)
  }

  /** Skipped means: reached over one or more edges from a step that failed. */
  ghost predicate SkippedIsDownstreamOfFailed(E: Edges, steps: seq<PlanStep>) {
    forall s | s in steps ::
      s.status == Skipped <==> exists f :: f in steps && f.status == Failed && Reaches(E, f.id, s.id)
  }

  lemma RunIsReported(
    E: Edges, index: map<Id, nat>, order: seq<Id>, before: seq<PlanStep>, after: seq<PlanStep>,
    outcomes: seq<StepStatus>, skippedIds: set<Id>, report: ExecutionReport)
    requires Locates(index, order, before) && Holds(index, order, before, after, outcomes)
    requires PrunesDownstream(E, order, outcomes, skippedIds) && |outcomes| == |order|
    requires report.completedSteps == Select(order, outcomes, Completed)
    requires report.failedSteps == Select(order, outcomes, Failed)
    requires report.skippedSteps == Select(order, outcomes, Skipped)
    requires report.success <==> report.failedSteps == []
    ensures ReportsOutcomes(report, order, outcomes, after)
    ensures SkippedIsDownstreamOfFailed(E, after)
  {
    hide Locates, Holds, PrunesDownstream;
    ListedOutcomes(index, order, before, after, outcomes);
    SelectSplits(order, outcomes);
    assert order[..|order|] == order;
    SelectIsStatus(index, order, before, after, outcomes, Completed);
    SelectIsStatus(index, order, before, after, outcomes, Failed);
    SelectIsStatus(index, order, before, after, outcomes, Skipped);
    NoneFailed(index, order, before, after, outcomes);
    SkippedExactly(E, index, order, before, after, outcomes, skippedIds);
  }

  lemma ListedOutcomes(
    index: map<Id, nat>, order: seq<Id>, before: seq<PlanStep>, after: seq<PlanStep>, outcomes: seq<StepStatus>)
    requires Locates(index, order, before) && Holds(index, order, before, after, outcomes) && |outcomes| == |order|
    ensures forall k | 0 <= k < |outcomes| :: outcomes[k] in {Completed, Failed, Skipped}
    ensures forall s | s in after :: s.status in {Completed, Failed, Skipped}
  {
    forall k | 0 <= k < |outcomes| ensures outcomes[k] in {Completed, Failed, Skipped} {
      assert after[index[order[k]]].status == outcomes[k];
    }
    forall s | s in after ensures s.status in {Completed, Failed, Skipped} {
      StatusIsOutcome(index, order, before, after, outcomes, s);
    }
  }

  lemma SelectIsStatus(
    index: map<Id, nat>, order: seq<Id>, before: seq<PlanStep>, after: seq<PlanStep>, outcomes: seq<StepStatus>, status: StepStatus)
    requires Locates(index, order, before) && Holds(index, order, before, after, outcomes) && |outcomes| == |order|
    ensures forall s | s in after :: s.id in Select(order, outcomes, status) <==> s.status == status
  {
    SelectMembers(order, outcomes, status);
    forall s | s in after ensures s.id in Select(order, outcomes, status) <==> s.status == status {
      StatusIsOutcome(index, order, before, after, outcomes, s);
    }
  }

  lemma NoneFailed(
    index: map<Id, nat>, order: seq<Id>, before: seq<PlanStep>, after: seq<PlanStep>, outcomes: seq<StepStatus>)
    requires Locates(index, order, before) && Holds(index, order, before, after, outcomes) && |outcomes| == |order|
    ensures Select(order, outcomes, Failed) == [] <==> forall s | s in after :: s.status != Failed
  {
    SelectIsStatus(index, order, before, after, outcomes, Failed);
    SelectMembers(order, outcomes, Failed);
    var failed := Select(order, outcomes, Failed);
    if failed != [] {
      assert failed[0] in failed;
      var k :| 0 <= k < |outcomes| && order[k] == failed[0] && outcomes[k] == Failed;
      StepOfPosition(index, order, before, after, outcomes, k);
    }
  }

  lemma SkippedExactly(
    E: Edges, index: map<Id, nat>, order: seq<Id>, before: seq<PlanStep>, after: seq<PlanStep>,
    outcomes: seq<StepStatus>, skippedIds: set<Id>)
    requires Locates(index, order, before) && Holds(index, order, before, after, outcomes)
    requires PrunesDownstream(E, order, outcomes, skippedIds) && |outcomes| == |order|
    ensures SkippedIsDownstreamOfFailed(E, after)
  {
    forall s | s in after
      ensures s.status == Skipped <==> exists f :: f in after && f.status == Failed && Reaches(E, f.id, s.id)
    {
      StatusIsOutcome(index, order, before, after, outcomes, s);
      assert s.status == Skipped <==> s.id in skippedIds;
      if s.id in skippedIds {
        var k :| 0 <= k < |outcomes| && outcomes[k] == Failed && Reaches(E, order[k], s.id);
        StepOfPosition(index, order, before, after, outcomes, k);
      }
      if f :| f in after && f.status == Failed && Reaches(E, f.id, s.id) {
        StatusIsOutcome(index, order, before, after, outcomes, f);
      }
    }
  }

  lemma StatusIsOutcome(
    index: map<Id, nat>, order: seq<Id>, before: seq<PlanStep>, after: seq<PlanStep>, outcomes: seq<StepStatus>, s: PlanStep)
    requires Locates(index, order, before) && Holds(index, order, before, after, outcomes)
    requires |outcomes| == |order| && s in after
    ensures exists k :: 0 <= k < |order| && order[k] == s.id && outcomes[k] == s.status
    ensures forall k | 0 <= k < |order| && order[k] == s.id :: outcomes[k] == s.status
  {
    var j :| 0 <= j < |after| && after[j] == s;
    assert SameExceptResult(before[j], after[j]) && before[j].id in order;
    var k :| 0 <= k < |order| && order[k] == s.id;
    assert after[index[order[k]]] == s;
  }

  lemma StepOfPosition(
    index: map<Id, nat>, order: seq<Id>, before: seq<PlanStep>, after: seq<PlanStep>, outcomes: seq<StepStatus>, k: nat)
    requires Locates(index, order, before) && Holds(index, order, before, after, outcomes)
    requires |outcomes| == |order| && k < |order|
    ensures exists s :: s in after && s.id == order[k] && s.status == outcomes[k]
  {
    var j := index[order[k]];
    assert order[k] in order && SameExceptResult(before[j], after[j]);
    assert after[j] in after;
  }

  /** Every id the step depends on belongs to a stored step, and that step is completed. */
  ghost predicate DependenciesCompleted(steps: seq<PlanStep>, step: PlanStep) {
    forall d | d in step.dependsOn ::
      (exists s :: s in steps && s.id == d) && forall s | s in steps && s.id == d :: s.status == Completed
  }

  /** Where the graph's edges are the declared dependencies, completed predecessors are completed dependencies. */
  lemma PredecessorsAreDependencies(dag: DagContract, before: seq<PlanStep>, steps: seq<PlanStep>, step: PlanStep)
    requires ValidPlan(before, dag) && EdgesAreDependencies(before, dag.E()) && SameSteps(before, steps)
    requires step in steps && PredecessorsCompleted(dag.E(), steps, step.id)
    ensures DependenciesCompleted(steps, step)
  {
    var j :| 0 <= j < |steps| && steps[j] == step;
    assert SameExceptResult(before[j], steps[j]) && before[j] in before;
    dag.EdgesAreWithin(|dag.edges|);
    forall d | d in step.dependsOn
      ensures (exists s :: s in steps && s.id == d) && forall s | s in steps && s.id == d :: s.status == Completed
    {
      assert (d, step.id) in dag.E();
      assert d in StepIds(before);
      var k :| 0 <= k < |before| && before[k].id == d;
      assert SameExceptResult(before[k], steps[k]) && steps[k] in steps;
    }
  }

  datatype ExecutionError = InvalidGraph(dagError: DagError) | RunnerFailed(message: string)

  /** A runner error stops the run with the step it was given running, what came before settled, the rest untouched. */
  ghost predicate StoppedAt(
    E: Edges, index: map<Id, nat>, order: seq<Id>, before: seq<PlanStep>, after: seq<PlanStep>, outcomes: seq<StepStatus>)
  {
    && |outcomes| < |order| && |after| == |before|
    && (forall id | id in order :: id in index && index[id] < |before|)
    && var at := index[order[|outcomes|]];
       && after[at] == before[at].(status := Running)
       && PredecessorsCompleted(E, after, order[|outcomes|])
       && Holds(index, order, before, after[at := before[at]], outcomes)
       && SkipsBelowFailures(E, order, outcomes) && !BelowFailure(E, order, outcomes, order[|outcomes|])
       && ((forall s | s in before :: s.status != Running) ==>
             forall j | 0 <= j < |after| :: after[j].status == Running <==> j == at)
  }

  lemma OnlyOneIsRunning(
    E: Edges, index: map<Id, nat>, order: seq<Id>, before: seq<PlanStep>, settled: seq<PlanStep>, outcomes: seq<StepStatus>)
    requires Locates(index, order, before) && Holds(index, order, before, settled, outcomes) && |outcomes| < |order|
    requires SkipsBelowFailures(E, order, outcomes) && !BelowFailure(E, order, outcomes, order[|outcomes|])
    requires var at := index[order[|outcomes|]];
             PredecessorsCompleted(E, settled[at := settled[at].(status := Running)], order[|outcomes|])
    ensures var at := index[order[|outcomes|]];
            StoppedAt(E, index, order, before, settled[at := settled[at].(status := Running)], outcomes)
  {
    var at := index[order[|outcomes|]];
    var after := settled[at := settled[at].(status := Running)];
    assert after[at := before[at]] == settled;
    if forall s | s in before :: s.status != Running {
      forall j | 0 <= j < |after| ensures after[j].status == Running <==> j == at {
        var k :| 0 <= k < |order| && order[k] == before[j].id;
        assert before[j] in before && index[order[k]] == j;
      }
    }
  }

  /** Children of each node, as the executor collects them. */
  method CollectDownstream(dag: DagContract) returns (downstream: map<Id, set<Id>>)
    ensures dag.Valid() ==> EdgesOf(downstream) == dag.E()
  {
    downstream := map[];
    for k := 0 to |dag.nodes|
      invariant downstream.Keys == dag.NodesBefore(k)
      invariant forall v | v in downstream :: downstream[v] == {}
    {
      downstream := downstream[dag.nodes[k].id := {}];
    }
    for k := 0 to |dag.edges|
      invariant downstream.Keys == dag.V()
      invariant dag.WellFormed() ==> EdgesOf(downstream) == dag.EdgesBefore(k)
    {
      var edge := dag.edges[k];
      if dag.WellFormed() {
        dag.EdgesOkPrefix(k + 1, |dag.edges|);
      }
      if edge.from in downstream {
        ghost var before := downstream;
        downstream := downstream[edge.from := downstream[edge.from] + {edge.to}];
        assert EdgesOf(downstream) == EdgesOf(before) + {(edge.from, edge.to)};
      }
    }
  }

  // ---- the executor's loop ----

  ghost predicate RunInvariant(
    dag: DagContract, runner: StepRunner, order: seq<Id>, before: seq<PlanStep>,
    steps: seq<PlanStep>, outcomes: seq<StepStatus>, skippedIds: set<Id>, calls: seq<Call>)
  {
    && IsLeastTopologicalOrder(dag.V(), dag.E(), order) && Within(dag.E(), dag.V())
    && Locates(IndexOf(before), order, before)
    && Holds(IndexOf(before), order, before, steps, outcomes)
    && PrunesDownstream(dag.E(), order, outcomes, skippedIds) && ClosedUnder(dag.E(), skippedIds)
    && CallsMade(dag.E(), runner, order, outcomes, IndexOf(before), before, steps, calls)
  }

  lemma RunStarts(dag: DagContract, runner: StepRunner, order: seq<Id>, before: seq<PlanStep>)
    requires ValidPlan(before, dag) && IsLeastTopologicalOrder(dag.V(), dag.E(), order)
    ensures RunInvariant(dag, runner, order, before, before, [], {}, []) && Lists(order, [], [], [], [])
  {
    dag.EdgesAreWithin(|dag.edges|);
    ValidPlanLocates(dag, before, order);
  }

  lemma RunSkips(
    dag: DagContract, runner: StepRunner, order: seq<Id>, before: seq<PlanStep>,
    steps: seq<PlanStep>, outcomes: seq<StepStatus>, skippedIds: set<Id>, calls: seq<Call>)
    requires RunInvariant(dag, runner, order, before, steps, outcomes, skippedIds, calls)
    requires |outcomes| < |order| && order[|outcomes|] in skippedIds
    ensures order[|outcomes|] in IndexOf(before) && IndexOf(before)[order[|outcomes|]] < |steps|
    ensures var at := IndexOf(before)[order[|outcomes|]];
            RunInvariant(dag, runner, order, before, steps[at := steps[at].(status := Skipped)], outcomes + [Skipped], skippedIds, calls)
  {
    var at := IndexOf(before)[order[|outcomes|]];
    Advance(IndexOf(before), order, before, steps, outcomes, steps[at].(status := Skipped));
    PruneNothing(dag.E(), order, outcomes, skippedIds, Skipped);
    KeepCalls(dag.E(), runner, IndexOf(before), order, before, steps, outcomes, calls, steps[at].(status := Skipped));
  }

  /** A step that is not pruned is handed to the runner properly, whatever comes back. */
  lemma RunCalls(
    dag: DagContract, runner: StepRunner, order: seq<Id>, before: seq<PlanStep>,
    steps: seq<PlanStep>, outcomes: seq<StepStatus>, skippedIds: set<Id>, calls: seq<Call>)
    requires RunInvariant(dag, runner, order, before, steps, outcomes, skippedIds, calls)
    requires |outcomes| < |order| && order[|outcomes|] !in skippedIds
    ensures order[|outcomes|] in IndexOf(before) && IndexOf(before)[order[|outcomes|]] < |steps|
    ensures var at := IndexOf(before)[order[|outcomes|]];
            var running := steps[at := steps[at].(status := Running)];
            && running[at].id == order[|outcomes|] && SameExceptResult(before[at], running[at])
            && (match runner(|calls|, running[at])
                case Ok(output) => ProperCall(dag.E(), runner, before, |calls|, Call(running[at], running, output))
                case Err(_) => StoppedAt(dag.E(), IndexOf(before), order, before, running, outcomes))
            && CallsMade(dag.E(), runner, order, outcomes, IndexOf(before), before, running, calls)
  {
    KeepCalls(dag.E(), runner, IndexOf(before), order, before, steps, outcomes, calls,
              steps[IndexOf(before)[order[|outcomes|]]].(status := Running));
    ReadyToRun(dag.V(), dag.E(), IndexOf(before), order, before, steps, outcomes, skippedIds);
    PruningIsBelowFailures(dag.E(), order, outcomes, skippedIds);
    OnlyOneIsRunning(dag.E(), IndexOf(before), order, before, steps, outcomes);
    var at := IndexOf(before)[order[|outcomes|]];
    var running := steps[at := steps[at].(status := Running)];
    assert running[at] in running;
    assert SameSteps(before, running);
  }

  lemma RunRecords(
    dag: DagContract, runner: StepRunner, order: seq<Id>, before: seq<PlanStep>,
    steps: seq<PlanStep>, outcomes: seq<StepStatus>, skippedIds: set<Id>, calls: seq<Call>,
    call: Call, step: PlanStep, pruned: set<Id>)
    requires RunInvariant(dag, runner, order, before, steps, outcomes, skippedIds, calls)
    requires |outcomes| < |order| && order[|outcomes|] !in skippedIds && call.step.id == order[|outcomes|]
    requires ProperCall(dag.E(), runner, before, |calls|, call)
    requires Records(step, call.output) && SameExceptResult(call.step, step)
    requires order[|outcomes|] in IndexOf(before) && IndexOf(before)[order[|outcomes|]] < |steps|
    requires var at := IndexOf(before)[order[|outcomes|]]; call.steps == steps[at := steps[at].(status := Running)]
    requires if call.output.success then pruned == skippedIds
             else forall v :: v in pruned <==> v in skippedIds || ReachesAvoiding(dag.E(), skippedIds, order[|outcomes|], v)
    ensures var at := IndexOf(before)[order[|outcomes|]];
            RunInvariant(dag, runner, order, before, steps[at := step], outcomes + [step.status], pruned, calls + [call])
  {
    var index := IndexOf(before);
    var j :| 0 <= j < |call.steps| && call.steps[j] == call.step;
    assert SameExceptResult(before[j], call.steps[j]);
    assert index[before[j].id] == j;
    Advance(index, order, before, steps, outcomes, step);
    if call.output.success {
      PruneNothing(dag.E(), order, outcomes, skippedIds, Completed);
    } else {
      PruneBelow(dag.V(), dag.E(), order, outcomes, skippedIds, pruned);
    }
    AddCall(dag.E(), runner, index, order, before, steps, outcomes, calls, call, step);
  }

  lemma RunEnds(
    dag: DagContract, runner: StepRunner, order: seq<Id>, before: seq<PlanStep>,
    steps: seq<PlanStep>, outcomes: seq<StepStatus>, skippedIds: set<Id>, calls: seq<Call>, report: ExecutionReport)
    requires RunInvariant(dag, runner, order, before, steps, outcomes, skippedIds, calls) && |outcomes| == |order|
    requires Lists(order, outcomes, report.completedSteps, report.failedSteps, report.skippedSteps)
    requires report.success <==> report.failedSteps == []
    ensures IsLeastTopologicalOrder(dag.V(), dag.E(), order)
    ensures CallsMade(dag.E(), runner, order, outcomes, IndexOf(before), before, steps, calls)
    ensures ReportsOutcomes(report, order, outcomes, steps) && Holds(IndexOf(before), order, before, steps, outcomes)
    ensures SkipsBelowFailures(dag.E(), order, outcomes)
    ensures SkippedIsDownstreamOfFailed(dag.E(), steps)
  {
    PruningIsBelowFailures(dag.E(), order, outcomes, skippedIds);
    RunIsReported(dag.E(), IndexOf(before), order, before, steps, outcomes, skippedIds, report);
  }

  lemma SelectAppend(order: seq<Id>, outcomes: seq<StepStatus>, next: StepStatus, status: StepStatus)
    requires |outcomes| < |order|
    ensures Select(order, outcomes + [next], status)
            == if next == status then Select(order, outcomes, status) + [order[|outcomes|]] else Select(order, outcomes, status)
  {
    assert (outcomes + [next])[..|outcomes|] == outcomes;
  }

  /** The report's lists as they stand after `outcomes`. */
  ghost predicate Lists(
    order: seq<Id>, outcomes: seq<StepStatus>, completed: seq<Id>, failed: seq<Id>, skipped: seq<Id>)
  {
    && |outcomes| <= |order|
    && completed == Select(order, outcomes, Completed)
    && failed == Select(order, outcomes, Failed)
    && skipped == Select(order, outcomes, Skipped)
  }

  lemma ListsAppend(
    order: seq<Id>, outcomes: seq<StepStatus>, completed: seq<Id>, failed: seq<Id>, skipped: seq<Id>, next: StepStatus)
    requires Lists(order, outcomes, completed, failed, skipped) && |outcomes| < |order|
    ensures next == Completed ==> Lists(order, outcomes + [next], completed + [order[|outcomes|]], failed, skipped)
    ensures next == Failed ==> Lists(order, outcomes + [next], completed, failed + [order[|outcomes|]], skipped)
    ensures next == Skipped ==> Lists(order, outcomes + [next], completed, failed, skipped + [order[|outcomes|]])
  {
    SelectAppend(order, outcomes, next, Completed);
    SelectAppend(order, outcomes, next, Failed);
    SelectAppend(order, outcomes, next, Skipped);
  }

  /** Hands one step to the runner: running while the call lasts, then completed or failed with what came back. */
  method RunStep(plan: Plan, index: nat, runner: StepRunner, callCount: nat)
    returns (r: Result<StepOutput, string>, ghost call: Call)
    requires index < |plan.steps|
    modifies plan
    ensures var running := old(plan.steps)[index].(status := Running);
            && r == runner(callCount, running)
            && (r.Err? ==> plan.steps == old(plan.steps)[index := running])
            && (r.Ok? ==>
                  && call == Call(running, old(plan.steps)[index := running], r.value)
                  && index < |plan.steps| && plan.steps == old(plan.steps)[index := plan.steps[index]]
                  && Records(plan.steps[index], r.value) && SameExceptResult(running, plan.steps[index]))
  {
    plan.steps := plan.steps[index := plan.steps[index].(status := Running)];
    var snapshot := plan.steps[index];
    r := runner(callCount, snapshot);
    call := Call(snapshot, plan.steps, StepOutput(false, "", None));
    if r.Err? {
      return;
    }
    var result := r.value;
    call := Call(snapshot, plan.steps, result);
    if result.success {
      plan.steps := plan.steps[index := plan.steps[index].(status := Completed, output := Some(result.output), error := None)];
      return;
    }
    plan.steps := plan.steps[index := plan.steps[index].(status := StepStatus.Failed, output := Some(result.output), error := result.error)];
  }

  /** `PlanExecutor::execute`. The ghost results are the execution order, the outcome at each position passed,
      and the calls that came back; the plan is changed in place. */
  method Execute(plan: Plan, runner: StepRunner)
    returns (r: Result<ExecutionReport, ExecutionError>, ghost order: seq<Id>, ghost outcomes: seq<StepStatus>, ghost calls: seq<Call>)
    modifies plan
    ensures !plan.dag.Valid() ==>
              r.Err? && r.error.InvalidGraph? && plan.dag.Diagnoses(r.error.dagError) && plan.steps == old(plan.steps)
    ensures ValidPlan(old(plan.steps), plan.dag) ==>
              && IsLeastTopologicalOrder(plan.dag.V(), plan.dag.E(), order)
    ensures ValidPlan(old(plan.steps), plan.dag) && r.Ok? ==>
              && r.value.planId == plan.id
              && Holds(IndexOf(old(plan.steps)), order, old(plan.steps), plan.steps, outcomes)
              && SkipsBelowFailures(plan.dag.E(), order, outcomes)
              && ReportsOutcomes(r.value, order, outcomes, plan.steps)
              && SkippedIsDownstreamOfFailed(plan.dag.E(), plan.steps)
              && CallsMade(plan.dag.E(), runner, order, outcomes, IndexOf(old(plan.steps)), old(plan.steps), plan.steps, calls)
    ensures ValidPlan(old(plan.steps), plan.dag) && r.Err? ==>
              && StoppedAt(plan.dag.E(), IndexOf(old(plan.steps)), order, old(plan.steps), plan.steps, outcomes)
              && r.error.RunnerFailed?
              && runner(|calls|, plan.steps[IndexOf(old(plan.steps))[order[|outcomes|]]]) == Err(r.error.message)
              && CallsMade(plan.dag.E(), runner, order, outcomes, IndexOf(old(plan.steps)), old(plan.steps), plan.steps, calls)
  {
    hide RunInvariant, SameSteps, Holds, SkipsBelowFailures, SeesStore, ReportsOutcomes, SkippedIsDownstreamOfFailed, CallsMade, StoppedAt, ProperCall,
         IsLeastTopologicalOrder, EdgesOf, Lists, DagContract.Valid, DagContract.V, DagContract.E, DagContract.Diagnoses,
         IndexOf, StepsOk, StepIds;
    order, outcomes, calls := [], [], [];
    ghost var ok, before := ValidPlan(plan.steps, plan.dag), plan.steps;
    var sorted := plan.ExecutionOrder();
    if sorted.Err? {
      return Err(InvalidGraph(sorted.error)), order, outcomes, calls;
    }
    order := sorted.value;
    var stepIndex := IndexOf(plan.steps);
    IndexOfFindsSteps(plan.steps);
    var downstream := CollectDownstream(plan.dag);
    var completed: seq<Id>, failed: seq<Id>, skipped: seq<Id> := [], [], [];
    var skippedIds: set<Id> := {};
    var callCount := 0;
    if ok {
      RunStarts(plan.dag, runner, order, before);
    }
    var i := 0;
    while i < |sorted.value|
      invariant 0 <= i <= |order| && order == sorted.value && |plan.steps| == |before|
      invariant ok ==> |outcomes| == i && callCount == |calls|
      invariant ok ==> RunInvariant(plan.dag, runner, order, before, plan.steps, outcomes, skippedIds, calls)
      invariant ok ==> Lists(order, outcomes, completed, failed, skipped)
    {
      var stepId := sorted.value[i];
      i := i + 1;
      if stepId in skippedIds {
        if ok {
          RunSkips(plan.dag, runner, order, before, plan.steps, outcomes, skippedIds, calls);
          ListsAppend(order, outcomes, completed, failed, skipped, Skipped);
          outcomes := outcomes + [Skipped];
        }
        if stepId in stepIndex {
          var index := stepIndex[stepId];
          plan.steps := plan.steps[index := plan.steps[index].(status := StepStatus.Skipped)];
          skipped := skipped + [stepId];
        }
        continue;
      }

      if ok {
        RunCalls(plan.dag, runner, order, before, plan.steps, outcomes, skippedIds, calls);
      }
      if stepId !in stepIndex {
        continue;
      }
      ghost var settled, completedBefore, failedBefore := plan.steps, completed, failed;
      ghost var call;
      var response;
      response, call := RunStep(plan, stepIndex[stepId], runner, callCount);
      if response.Err? {
        return Err(RunnerFailed(response.error)), order, outcomes, calls;
      }
      callCount := callCount + 1;
      ghost var step := plan.steps[stepIndex[stepId]];
      var pruned := skippedIds;
      if response.value.success {
        completed := completed + [stepId];
      } else {
        pruned := MarkDownstreamSkipped(stepId, downstream, skippedIds);
        failed := failed + [stepId];
      }
      if ok {
        RunRecords(plan.dag, runner, order, before, settled, outcomes, skippedIds, calls, call, step, pruned);
        ListsAppend(order, outcomes, completedBefore, failedBefore, skipped, step.status);
        outcomes, calls := outcomes + [step.status], calls + [call];
      }
      skippedIds := pruned;
    }
    r := Ok(ExecutionReport(plan.id, completed, failed, skipped, failed == []));
    if ok {
      RunEnds(plan.dag, runner, order, before, plan.steps, outcomes, skippedIds, calls, r.value);
    }
  }

  // ---- from document to report ----

  /** Every step that was handed to the runner has all it depends on stored as completed. */
  ghost predicate RanAfterDependencies(steps: seq<PlanStep>) {
    forall s | s in steps && s.status in {Running, Completed, Failed} :: DependenciesCompleted(steps, s)
  }

  /** How a run that the runner broke off leaves the steps of a freshly parsed plan: settled, one running, the rest pending. */
  ghost predicate BrokenOff(E: Edges, steps: seq<PlanStep>, order: seq<Id>, outcomes: seq<StepStatus>) {
    && |outcomes| < |order| && SkipsBelowFailures(E, order, outcomes)
    && (forall k, j | 0 <= k < |outcomes| && 0 <= j < |steps| && steps[j].id == order[k] :: steps[j].status == outcomes[k])
    && (exists at :: 0 <= at < |steps| && steps[at].id == order[|outcomes|]
          && forall j | 0 <= j < |steps| :: steps[j].status == Running <==> j == at)
    && forall k, j | |outcomes| < k < |order| && 0 <= j < |steps| && steps[j].id == order[k] ::
         steps[j].status == Pending && steps[j].output == None && steps[j].error == None
  }

  /** The predecessors of a step that no failure reaches come before it and completed. */
  lemma PredecessorCompleted(
    V: set<Id>, E: Edges, order: seq<Id>, outcomes: seq<StepStatus>, k: nat, u: Id)
    returns (m: nat)
    requires IsTopologicalOrder(V, E, order) && SkipsBelowFailures(E, order, outcomes)
    requires forall j | 0 <= j < |outcomes| :: outcomes[j] in {Completed, Failed, Skipped}
    requires k <= |outcomes| && k < |order| && !BelowFailure(E, order, outcomes, order[k])
    requires (u, order[k]) in E && Within(E, V)
    ensures m < k && order[m] == u && outcomes[m] == Completed
  {
    hide Reaches;
    m :| 0 <= m < |order| && order[m] == u;
    assert m < k;
    if outcomes[m] == Failed {
      EdgeReaches(E, order[m], order[k]);
    }
    if outcomes[m] == Skipped {
      var f :| 0 <= f < |outcomes| && outcomes[f] == Failed && Reaches(E, order[f], order[m]);
      ReachesThenEdge(E, order[f], order[m], order[k]);
    }
  }

  lemma SettledPredecessors(
    V: set<Id>, E: Edges, index: map<Id, nat>, order: seq<Id>, before: seq<PlanStep>, settled: seq<PlanStep>,
    after: seq<PlanStep>, outcomes: seq<StepStatus>, k: nat)
    requires IsTopologicalOrder(V, E, order) && Within(E, V) && Locates(index, order, before)
    requires Holds(index, order, before, settled, outcomes) && SkipsBelowFailures(E, order, outcomes)
    requires k <= |outcomes| && k < |order| && !BelowFailure(E, order, outcomes, order[k])
    requires SameSteps(before, after)
    requires forall m | 0 <= m < |outcomes| :: after[index[order[m]]] == settled[index[order[m]]]
    ensures PredecessorsCompleted(E, after, order[k])
  {
    hide SkipsBelowFailures, BelowFailure, IsTopologicalOrder;
    forall s | s in after && (s.id, order[k]) in E ensures s.status == Completed {
      var j :| 0 <= j < |after| && after[j] == s;
      var m := PredecessorCompleted(V, E, order, outcomes, k, s.id);
      assert SameExceptResult(before[j], after[j]);
      assert index[order[m]] == j;
    }
  }

  lemma RanProperly(
    raw: RawPlan, dag: DagContract, order: seq<Id>, settled: seq<PlanStep>, after: seq<PlanStep>, outcomes: seq<StepStatus>)
    requires ValidPlan(ToSteps(raw), dag) && EdgesAreDependencies(ToSteps(raw), dag.E())
    requires IsTopologicalOrder(dag.V(), dag.E(), order)
    requires Holds(IndexOf(ToSteps(raw)), order, ToSteps(raw), settled, outcomes)
    requires SkipsBelowFailures(dag.E(), order, outcomes)
    requires |outcomes| < |order| ==> !BelowFailure(dag.E(), order, outcomes, order[|outcomes|])
    requires SameSteps(ToSteps(raw), after)
    requires forall k | 0 <= k < |order| && k != |outcomes| :: after[IndexOf(ToSteps(raw))[order[k]]] == settled[IndexOf(ToSteps(raw))[order[k]]]
    ensures RanAfterDependencies(after)
  {
    hide IsTopologicalOrder, ValidPlan, EdgesAreDependencies, IndexOf, BelowFailure, DependenciesCompleted, PredecessorsCompleted, Within;
    var before, index := ToSteps(raw), IndexOf(ToSteps(raw));
    ValidPlanLocates(dag, before, order);
    ValidPlanWithin(before, dag);
    forall s | s in after && s.status in {Running, Completed, Failed} ensures DependenciesCompleted(after, s) {
      var j :| 0 <= j < |after| && after[j] == s;
      assert SameExceptResult(before[j], after[j]);
      var k :| 0 <= k < |order| && order[k] == before[j].id;
      assert index[order[k]] == j && before[j].status == Pending;
      SettledPredecessors(dag.V(), dag.E(), index, order, before, settled, after, outcomes, k);
      PredecessorsAreDependencies(dag, before, after, s);
    }
  }

  lemma ValidPlanWithin(steps: seq<PlanStep>, dag: DagContract)
    requires ValidPlan(steps, dag)
    ensures Within(dag.E(), dag.V())
  {
    dag.EdgesAreWithin(|dag.edges|);
  }

  lemma StoppedSteps(
    E: Edges, index: map<Id, nat>, order: seq<Id>, before: seq<PlanStep>, after: seq<PlanStep>, outcomes: seq<StepStatus>)
    requires Locates(index, order, before) && StoppedAt(E, index, order, before, after, outcomes)
    ensures SameSteps(before, after) && after[index[order[|outcomes|]]].id == order[|outcomes|]
    ensures forall k, j | |outcomes| < k < |order| && 0 <= j < |after| && after[j].id == order[k] :: after[j] == before[j]
    ensures forall k, j | 0 <= k < |outcomes| && 0 <= j < |after| && after[j].id == order[k] :: after[j].status == outcomes[k]
    ensures forall k | 0 <= k < |order| && k != |outcomes| ::
              after[index[order[k]]] == after[index[order[|outcomes|]] := before[index[order[|outcomes|]]]][index[order[k]]]
  {
    hide SkipsBelowFailures, BelowFailure, PredecessorsCompleted;
    var at := index[order[|outcomes|]];
    var settled := after[at := before[at]];
    assert order[|outcomes|] in order;
    forall j | 0 <= j < |after| ensures SameExceptResult(before[j], after[j]) {
      assert SameExceptResult(before[j], settled[j]);
    }
    forall k, j | |outcomes| < k < |order| && 0 <= j < |after| && after[j].id == order[k]
      ensures after[j] == before[j]
    {
      assert SameExceptResult(before[j], after[j]) && order[k] in order;
      assert settled[index[order[k]]] == before[index[order[k]]];
    }
    forall k, j | 0 <= k < |outcomes| && 0 <= j < |after| && after[j].id == order[k]
      ensures after[j].status == outcomes[k]
    {
      assert SameExceptResult(before[j], after[j]) && order[k] in order;
      assert settled[index[order[k]]].status == outcomes[k];
    }
    forall k | 0 <= k < |order| && k != |outcomes| ensures index[order[k]] != at {
      assert order[k] in order;
    }
  }

  lemma FreshRunBrokenOff(
    raw: RawPlan, dag: DagContract, order: seq<Id>, after: seq<PlanStep>, outcomes: seq<StepStatus>)
    requires ValidPlan(ToSteps(raw), dag) && EdgesAreDependencies(ToSteps(raw), dag.E())
    requires IsTopologicalOrder(dag.V(), dag.E(), order)
    requires StoppedAt(dag.E(), IndexOf(ToSteps(raw)), order, ToSteps(raw), after, outcomes)
    ensures BrokenOff(dag.E(), after, order, outcomes) && RanAfterDependencies(after) && SameSteps(ToSteps(raw), after)
  {
    hide Locates, SameSteps, PredecessorsCompleted, RanAfterDependencies, Holds, IsTopologicalOrder, ValidPlan,
         EdgesAreDependencies, IndexOf, SkipsBelowFailures, BelowFailure;
    var before := ToSteps(raw);
    var index := IndexOf(before);
    ValidPlanLocates(dag, before, order);
    StoppedSteps(dag.E(), index, order, before, after, outcomes);
    var at := index[order[|outcomes|]];
    assert forall s | s in before :: s.status == Pending;
    RanProperly(raw, dag, order, after[at := before[at]], after, outcomes);
    forall k, j | |outcomes| < k < |order| && 0 <= j < |after| && after[j].id == order[k]
      ensures after[j].status == Pending && after[j].output == None && after[j].error == None
    {
      assert after[j] == before[j];
    }
  }

  lemma FreshRunCalls(raw: RawPlan, dag: DagContract, runner: StepRunner, calls: seq<Call>)
    requires ValidPlan(ToSteps(raw), dag) && EdgesAreDependencies(ToSteps(raw), dag.E())
    requires forall n | 0 <= n < |calls| :: ProperCall(dag.E(), runner, ToSteps(raw), n, calls[n])
    ensures forall n | 0 <= n < |calls| :: DependenciesCompleted(calls[n].steps, calls[n].step)
  {
    forall n | 0 <= n < |calls| ensures DependenciesCompleted(calls[n].steps, calls[n].step) {
      assert ProperCall(dag.E(), runner, ToSteps(raw), n, calls[n]);
      PredecessorsAreDependencies(dag, ToSteps(raw), calls[n].steps, calls[n].step);
    }
  }

  /** Parses a plan document and runs the plan, as the planner's callers do. */
  method ParseAndExecute(raw: RawPlan, runner: StepRunner)
    returns (parsed: Result<Plan, PlanError>, r: Option<Result<ExecutionReport, ExecutionError>>,
             ghost order: seq<Id>, ghost outcomes: seq<StepStatus>, ghost calls: seq<Call>)
    ensures parsed.Err? ==> r == None && calls == []
    ensures parsed.Ok? ==> r.Some? && fresh(parsed.value) && (r.value.Err? ==> r.value.error.RunnerFailed?)
    ensures forall n | 0 <= n < |calls| :: DependenciesCompleted(calls[n].steps, calls[n].step)
    ensures forall n | 0 <= n < |calls| :: IsAskedFor(calls[n].step, raw)
    ensures parsed.Ok? <==> IsWellPosed(raw)
    ensures parsed.Ok? ==> AllAsAsked(parsed.value.steps, raw)
    ensures parsed.Ok? && r.Some? ==>
              && var plan := parsed.value;
                 && IsLeastTopologicalOrder(plan.dag.V(), plan.dag.E(), order)
                 && CallsMade(plan.dag.E(), runner, order, outcomes, IndexOf(ToSteps(raw)), ToSteps(raw), plan.steps, calls)
                 && RanAfterDependencies(plan.steps)
                 && (if r.value.Ok?
                     then ReportsOutcomes(r.value.value, order, outcomes, plan.steps)
                          && SkippedIsDownstreamOfFailed(plan.dag.E(), plan.steps)
                     else BrokenOff(plan.dag.E(), plan.steps, order, outcomes)
                          && runner(|calls|, plan.steps[IndexOf(ToSteps(raw))[order[|outcomes|]]]) == Err(r.value.error.message))
  {
    hide ReportsOutcomes, SkippedIsDownstreamOfFailed, StoppedAt, BrokenOff, DependenciesCompleted, ValidPlan, EdgesAreDependencies,
         IsTopologicalOrder, RanAfterDependencies, Holds, SkipsBelowFailures, CallsMade, IndexOf, AllAsAsked, IsAskedFor, IsWellPosed,
         SameSteps, ToSteps, ToNodes, ToEdges, RejectsPlan, DagContract.Diagnoses, IsLeastTopologicalOrder;
    order, outcomes, calls := [], [], [];
    parsed := Parse(raw);
    if parsed.Err? {
      return parsed, None, order, outcomes, calls;
    }
    var plan := parsed.value;
    ValidPlanGraph(ToSteps(raw), plan.dag);
    ghost var asked := plan.steps;
    var report;
    report, order, outcomes, calls := Execute(plan, runner);
    CallsAreProper(plan.dag.E(), runner, order, outcomes, IndexOf(ToSteps(raw)), ToSteps(raw), plan.steps, calls);
    CallsAreAskedFor(plan.dag.E(), runner, raw, asked, calls);
    FreshRunCalls(raw, plan.dag, runner, calls);
    LeastIsTopological(plan.dag.V(), plan.dag.E(), order);
    if report.Err? {
      FreshRunBrokenOff(raw, plan.dag, order, plan.steps, outcomes);
    } else {
      FreshRunEnds(raw, plan.dag, order, plan.steps, outcomes, report.value);
    }
    SameStepsAsAsked(raw, asked, plan.steps);
    r := Some(report);
  }

  /** The runner is handed what the document's step with that id asks for. */
  ghost predicate IsAskedFor(step: PlanStep, raw: RawPlan) {
    exists i :: 0 <= i < |raw.steps| && AsAsked(step, raw.steps[i])
  }

  lemma CallsAreAskedFor(E: Edges, runner: StepRunner, raw: RawPlan, asked: seq<PlanStep>, calls: seq<Call>)
    requires AllAsAsked(asked, raw)
    requires forall n | 0 <= n < |calls| :: ProperCall(E, runner, asked, n, calls[n])
    ensures forall n | 0 <= n < |calls| :: IsAskedFor(calls[n].step, raw)
  {
    forall n | 0 <= n < |calls| ensures IsAskedFor(calls[n].step, raw) {
      assert ProperCall(E, runner, asked, n, calls[n]);
      var j :| 0 <= j < |calls[n].steps| && calls[n].steps[j] == calls[n].step;
      assert SameExceptResult(asked[j], calls[n].steps[j]) && AsAsked(asked[j], raw.steps[j]);
      assert AsAsked(calls[n].step, raw.steps[j]);
    }
  }

  lemma SameStepsAsAsked(raw: RawPlan, asked: seq<PlanStep>, steps: seq<PlanStep>)
    requires AllAsAsked(asked, raw) && SameSteps(asked, steps)
    ensures AllAsAsked(steps, raw)
  {
    forall i | 0 <= i < |steps| ensures AsAsked(steps[i], raw.steps[i]) {
      assert SameExceptResult(asked[i], steps[i]) && AsAsked(asked[i], raw.steps[i]);
    }
  }

  lemma CallsAreProper(
    E: Edges, runner: StepRunner, order: seq<Id>, outcomes: seq<StepStatus>,
    index: map<Id, nat>, before: seq<PlanStep>, after: seq<PlanStep>, calls: seq<Call>)
    requires CallsMade(E, runner, order, outcomes, index, before, after, calls)
    ensures forall n | 0 <= n < |calls| :: ProperCall(E, runner, before, n, calls[n])
  {
  }

  lemma LeastIsTopological(V: set<Id>, E: Edges, order: seq<Id>)
    requires IsLeastTopologicalOrder(V, E, order)
    ensures IsTopologicalOrder(V, E, order)
  {
  }

  lemma FreshRunEnds(
    raw: RawPlan, dag: DagContract, order: seq<Id>, after: seq<PlanStep>, outcomes: seq<StepStatus>, report: ExecutionReport)
    requires ValidPlan(ToSteps(raw), dag) && EdgesAreDependencies(ToSteps(raw), dag.E())
    requires IsTopologicalOrder(dag.V(), dag.E(), order)
    requires Holds(IndexOf(ToSteps(raw)), order, ToSteps(raw), after, outcomes)
    requires SkipsBelowFailures(dag.E(), order, outcomes) && ReportsOutcomes(report, order, outcomes, after)
    ensures RanAfterDependencies(after) && SameSteps(ToSteps(raw), after)
  {
    hide SameSteps, RanAfterDependencies, IsTopologicalOrder, ValidPlan, EdgesAreDependencies, IndexOf, SkipsBelowFailures, BelowFailure;
    RanProperly(raw, dag, order, after, after, outcomes);
  }

  lemma ValidPlanGraph(steps: seq<PlanStep>, dag: DagContract)
    requires ValidPlan(steps, dag)
    ensures dag.Valid()
  {
  }
}
