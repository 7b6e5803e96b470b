/** From a decoded plan document to a plan: one node per step, one edge per dependency. */
module PlanParsing {
  import opened Wrappers
  import opened Ids
  import opened Digraphs
  import opened DagContracts
  import opened Plans
  import opened Whitespace

  datatype RawStep = RawStep(id: Id, description: string, action: StepAction, dependsOn: seq<Id>)
  datatype RawPlan = RawPlan(id: string, description: string, steps: seq<RawStep>)

  function ToStep(raw: RawStep): PlanStep {
    PlanStep(raw.id, raw.description, raw.action, Pending, raw.dependsOn, None, None)
  }

  /** The graph has an edge into a step exactly from the steps it depends on. */
  ghost predicate EdgesAreDependencies(steps: seq<PlanStep>, E: Edges) {
    forall a, b :: (a, b) in E <==> exists s :: s in steps && s.id == b && a in s.dependsOn
  }

  ghost function ToSteps(raw: RawPlan): seq<PlanStep> {
    seq(|raw.steps|, i requires 0 <= i < |raw.steps| => ToStep(raw.steps[i]))
  }

  ghost function ToNodes(raw: RawPlan): seq<DagNode> {
    seq(|raw.steps|, i requires 0 <= i < |raw.steps| => DagNode(raw.steps[i].id))
  }

  /** The dependencies of the first `n` steps, in document order. */
  ghost function ToEdges(steps: seq<RawStep>): seq<DagEdge> {
    if |steps| == 0 then []
    else
      var last := steps[|steps| - 1];
      ToEdges(steps[..|steps| - 1]) + seq(|last.dependsOn|, j requires 0 <= j < |last.dependsOn| => DagEdge(last.dependsOn[j], last.id))
  }

  lemma {:induction false} EdgesComeFromDependencies(steps: seq<RawStep>)
    ensures forall a, b :: DagEdge(a, b) in ToEdges(steps) <==> exists s :: s in steps && s.id == b && a in s.dependsOn
  {
    if |steps| > 0 {
      var init, last := steps[..|steps| - 1], steps[|steps| - 1];
      EdgesComeFromDependencies(init);
      assert steps == init + [last];
      var added := seq(|last.dependsOn|, j requires 0 <= j < |last.dependsOn| => DagEdge(last.dependsOn[j], last.id));
      forall a, b
        ensures DagEdge(a, b) in ToEdges(steps) <==> exists s :: s in steps && s.id == b && a in s.dependsOn
      {
        if last.id == b && a in last.dependsOn {
          var j :| 0 <= j < |last.dependsOn| && last.dependsOn[j] == a;
          assert added[j] == DagEdge(a, b);
        }
      }
    }
  }

  /** The steps and the graph that a document stands for have matching ids, and dependencies as edges. */
  lemma DocumentMatchesGraph(raw: RawPlan)
    ensures var dag := DagContract(ToNodes(raw), ToEdges(raw.steps));
            StepIds(ToSteps(raw)) == dag.V() && EdgesAreDependencies(ToSteps(raw), dag.E())
  {
    var dag, steps := DagContract(ToNodes(raw), ToEdges(raw.steps)), ToSteps(raw);
    dag.NodesBeforeMeaning(|dag.nodes|);
    dag.EdgesBeforeMeaning(|dag.edges|);
    EdgesComeFromDependencies(raw.steps);
    forall v ensures v in StepIds(steps) <==> v in dag.V() {
      if v in StepIds(steps) {
        var i :| 0 <= i < |steps| && steps[i].id == v;
        assert dag.nodes[i].id == v;
      }
      if v in dag.V() {
        var i :| 0 <= i < |dag.nodes| && dag.nodes[i].id == v;
        assert steps[i] in steps;
      }
    }
    forall a, b
      ensures (a, b) in dag.E() <==> exists s :: s in steps && s.id == b && a in s.dependsOn
    {
      if (a, b) in dag.E() {
        assert DagEdge(a, b) in ToEdges(raw.steps);
        var s :| s in raw.steps && s.id == b && a in s.dependsOn;
        var i :| 0 <= i < |raw.steps| && raw.steps[i] == s;
        assert steps[i] in steps;
      }
      if s :| s in steps && s.id == b && a in s.dependsOn {
        var i :| 0 <= i < |steps| && steps[i] == s;
        assert raw.steps[i] in raw.steps;
        assert DagEdge(a, b) in ToEdges(raw.steps);
      }
    }
  }

  /** The step asks for what the document's step asks for. */
  ghost predicate AsAsked(step: PlanStep, asked: RawStep) {
    step.id == asked.id && step.description == asked.description && step.action == asked.action && step.dependsOn == asked.dependsOn
  }

  ghost predicate AllAsAsked(steps: seq<PlanStep>, raw: RawPlan) {
    |steps| == |raw.steps| && forall i | 0 <= i < |steps| :: AsAsked(steps[i], raw.steps[i])
  }

  ghost predicate NotStarted(step: PlanStep) {
    step.status == Pending && step.output == None && step.error == None
  }

  ghost function Dependencies(raw: RawPlan): Edges {
    set s, d | s in raw.steps && d in s.dependsOn :: (d, s.id)
  }

  ghost predicate IdsAreFine(raw: RawPlan) {
    && (forall i | 0 <= i < |raw.steps| :: !Blank(raw.steps[i].id))
    && forall i, j | 0 <= i < j < |raw.steps| :: raw.steps[i].id != raw.steps[j].id
  }

  ghost predicate DependenciesAreFine(raw: RawPlan) {
    && (forall i, d | 0 <= i < |raw.steps| && d in raw.steps[i].dependsOn :: exists s :: s in raw.steps && s.id == d)
    && forall i | 0 <= i < |raw.steps| :: Distinct(raw.steps[i].dependsOn)
  }

  /** The document has steps, with different, non-blank ids, that depend on one another without repetition and in no circle. */
  ghost predicate IsWellPosed(raw: RawPlan) {
    raw.steps != [] && IdsAreFine(raw) && DependenciesAreFine(raw) && Acyclic(Dependencies(raw))
  }

  function EdgesInto(step: RawStep): seq<DagEdge> {
    seq(|step.dependsOn|, j requires 0 <= j < |step.dependsOn| => DagEdge(step.dependsOn[j], step.id))
  }

  lemma {:induction false} EdgesLeadToSteps(steps: seq<RawStep>)
    ensures forall e | e in ToEdges(steps) :: exists s :: s in steps && s.id == e.to
  {
    EdgesComeFromDependencies(steps);
    forall e | e in ToEdges(steps) ensures exists s :: s in steps && s.id == e.to {
      assert DagEdge(e.from, e.to) in ToEdges(steps);
    }
  }

  lemma EdgesIntoAreDistinct(step: RawStep)
    ensures Distinct(EdgesInto(step)) <==> Distinct(step.dependsOn)
  {
    var es, ds := EdgesInto(step), step.dependsOn;
    if Distinct(es) {
      forall i, j | 0 <= i < j < |ds| ensures ds[i] != ds[j] {
        assert es[i] != es[j];
      }
    }
  }

  lemma DistinctConcat<T>(a: seq<T>, b: seq<T>)
    requires forall x, y | x in a && y in b :: x != y
    ensures Distinct(a + b) <==> Distinct(a) && Distinct(b)
  {
    var c := a + b;
    if Distinct(c) {
      forall i, j | 0 <= i < j < |a| ensures a[i] != a[j] {
        assert c[i] != c[j];
      }
      forall i, j | 0 <= i < j < |b| ensures b[i] != b[j] {
        assert c[|a| + i] != c[|a| + j];
      }
    }
    if Distinct(a) && Distinct(b) {
      forall i, j | 0 <= i < j < |c| ensures c[i] != c[j] {
        if i < |a| <= j {
          assert a[i] in a && b[j - |a|] in b;
        }
      }
    }
  }

  /** An edge repeats exactly if some step repeats a dependency. */
  lemma {:induction false} EdgesAreDistinct(steps: seq<RawStep>)
    requires forall i, j | 0 <= i < j < |steps| :: steps[i].id != steps[j].id
    ensures Distinct(ToEdges(steps)) <==> forall i | 0 <= i < |steps| :: Distinct(steps[i].dependsOn)
  {
    hide Distinct;
    if |steps| == 0 {
      NothingRepeats();
    } else {
      var n := |steps| - 1;
      var init, last := steps[..n], steps[n];
      EdgesAreDistinct(init);
      EdgesLeadToSteps(init);
      EdgesIntoAreDistinct(last);
      DistinctConcat(ToEdges(init), EdgesInto(last));
      assert ToEdges(steps) == ToEdges(init) + EdgesInto(last);
      assert forall i | 0 <= i < n :: init[i] == steps[i];
    }
  }

  lemma NothingRepeats()
    ensures Distinct<DagEdge>([])
  {
  }

  lemma DependenciesAreEdges(raw: RawPlan)
    ensures DagContract(ToNodes(raw), ToEdges(raw.steps)).E() == Dependencies(raw)
  {
    var dag := DagContract(ToNodes(raw), ToEdges(raw.steps));
    dag.EdgesBeforeMeaning(|dag.edges|);
    EdgesComeFromDependencies(raw.steps);
    forall e ensures e in dag.E() <==> e in Dependencies(raw) {
      DependencyMeaning(raw, e.0, e.1);
      if e in dag.E() {
        assert (e.0, e.1) in dag.E();
        assert DagEdge(e.0, e.1) in ToEdges(raw.steps);
      }
      if (e.0, e.1) in Dependencies(raw) {
        assert DagEdge(e.0, e.1) in ToEdges(raw.steps);
        var i :| 0 <= i < |dag.edges| && dag.edges[i] == DagEdge(e.0, e.1);
        assert (e.0, e.1) in dag.E();
      }
    }
  }

  lemma DependencyMeaning(raw: RawPlan, a: Id, b: Id)
    ensures (a, b) in Dependencies(raw) <==> exists s :: s in raw.steps && s.id == b && a in s.dependsOn
  {
    if s :| s in raw.steps && s.id == b && a in s.dependsOn {
      assert (a, s.id) in Dependencies(raw);
    }
  }

  lemma NodesAreSteps(raw: RawPlan)
    ensures forall v :: v in DagContract(ToNodes(raw), ToEdges(raw.steps)).V() <==> exists s :: s in raw.steps && s.id == v
  {
    var dag := DagContract(ToNodes(raw), ToEdges(raw.steps));
    dag.NodesBeforeMeaning(|dag.nodes|);
    forall v ensures v in dag.V() <==> exists s :: s in raw.steps && s.id == v {
      if v in dag.V() {
        var i :| 0 <= i < |dag.nodes| && dag.nodes[i].id == v;
        assert raw.steps[i] in raw.steps;
      }
      if s :| s in raw.steps && s.id == v {
        var i :| 0 <= i < |raw.steps| && raw.steps[i] == s;
        assert dag.nodes[i].id == v;
      }
    }
  }

  lemma EdgesAreKnown(raw: RawPlan)
    ensures var dag := DagContract(ToNodes(raw), ToEdges(raw.steps));
            dag.EdgesAreKnown()
            <==> forall i, d | 0 <= i < |raw.steps| && d in raw.steps[i].dependsOn :: exists s :: s in raw.steps && s.id == d
  {
    var dag := DagContract(ToNodes(raw), ToEdges(raw.steps));
    NodesAreSteps(raw);
    EdgesComeFromDependencies(raw.steps);
    hide DagContract.V;
    if forall i | 0 <= i < |dag.edges| :: dag.edges[i].from in dag.V() && dag.edges[i].to in dag.V() {
      forall i, d | 0 <= i < |raw.steps| && d in raw.steps[i].dependsOn ensures exists s :: s in raw.steps && s.id == d {
        assert raw.steps[i] in raw.steps;
        assert DagEdge(d, raw.steps[i].id) in dag.edges;
      }
    }
    if forall i, d | 0 <= i < |raw.steps| && d in raw.steps[i].dependsOn :: exists s :: s in raw.steps && s.id == d {
      forall i | 0 <= i < |dag.edges| ensures dag.edges[i].from in dag.V() && dag.edges[i].to in dag.V() {
        var e := dag.edges[i];
        assert DagEdge(e.from, e.to) in ToEdges(raw.steps);
        var s :| s in raw.steps && s.id == e.to && e.from in s.dependsOn;
        var k :| 0 <= k < |raw.steps| && raw.steps[k] == s;
      }
    }
  }

  lemma NodesAreFine(raw: RawPlan)
    ensures var dag := DagContract(ToNodes(raw), ToEdges(raw.steps));
            dag.IdsAreFine() <==> IdsAreFine(raw)
    ensures StepsOk(ToSteps(raw)) <==> IdsAreFine(raw)
  {
    hide Blank, ToEdges;
    assert forall i | 0 <= i < |raw.steps| :: ToNodes(raw)[i].id == raw.steps[i].id && ToSteps(raw)[i].id == raw.steps[i].id;
  }

  lemma EdgesAreFine(raw: RawPlan)
    requires IdsAreFine(raw)
    ensures var dag := DagContract(ToNodes(raw), ToEdges(raw.steps));
            dag.EdgesAreKnown() && Distinct(dag.edges) <==> DependenciesAreFine(raw)
  {
    hide DagContract.EdgesAreKnown, ToEdges, ToNodes, Distinct, Blank;
    EdgesAreKnown(raw);
    EdgesAreDistinct(raw.steps);
  }

  lemma GraphIsFine(raw: RawPlan)
    ensures DagContract(ToNodes(raw), ToEdges(raw.steps)).Valid() <==>
            IdsAreFine(raw) && DependenciesAreFine(raw) && Acyclic(Dependencies(raw))
  {
    hide *;
    var dag := DagContract(ToNodes(raw), ToEdges(raw.steps));
    dag.ValidParts();
    DependenciesAreEdges(raw);
    NodesAreFine(raw);
    if IdsAreFine(raw) {
      EdgesAreFine(raw);
    }
  }

  /** A document is accepted exactly if it is well posed. */
  lemma WellPosedIsValid(raw: RawPlan)
    ensures raw.steps != [] && ValidPlan(ToSteps(raw), DagContract(ToNodes(raw), ToEdges(raw.steps))) <==> IsWellPosed(raw)
  {
    hide DagContract.Valid, DagContract.V, DagContract.E, ToEdges, ToNodes, ToSteps, EdgesAreDependencies, Acyclic, Dependencies,
         IdsAreFine, DependenciesAreFine, StepsOk, StepIds;
    GraphIsFine(raw);
    NodesAreFine(raw);
    DocumentMatchesGraph(raw);
  }

  method CollectEdges(steps: seq<RawStep>) returns (edges: seq<DagEdge>)
    ensures edges == ToEdges(steps)
  {
    edges := [];
    for k := 0 to |steps|
      invariant edges == ToEdges(steps[..k])
    {
      var rs := steps[k];
      assert steps[..k + 1][..k] == steps[..k];
      for j := 0 to |rs.dependsOn|
        invariant edges == ToEdges(steps[..k])
                           + seq(j, i requires 0 <= i < j => DagEdge(rs.dependsOn[i], rs.id))
      {
        edges := edges + [DagEdge(rs.dependsOn[j], rs.id)];
      }
    }
    assert steps[..|steps|] == steps;
  }

  method Parse(raw: RawPlan) returns (r: Result<Plan, PlanError>)
    ensures r.Ok? <==> raw.steps != [] && ValidPlan(ToSteps(raw), DagContract(ToNodes(raw), ToEdges(raw.steps)))
    ensures r.Ok? <==> IsWellPosed(raw)
    ensures r.Ok? ==> AllAsAsked(r.value.steps, raw) && forall i | 0 <= i < |raw.steps| :: NotStarted(r.value.steps[i])
    ensures r.Ok? ==>
              && fresh(r.value) && r.value.id == raw.id && r.value.description == raw.description
              && r.value.steps == ToSteps(raw) && ValidPlan(r.value.steps, r.value.dag)
              && EdgesAreDependencies(r.value.steps, r.value.dag.E())
    ensures r.Err? ==>
              if raw.steps == [] then r.error == EmptyPlan
              else RejectsPlan(r.error, ToSteps(raw), DagContract(ToNodes(raw), ToEdges(raw.steps)))
  {
    WellPosedIsValid(raw);
    hide IsWellPosed, ToEdges, ValidPlan, RejectsPlan, EdgesAreDependencies;
    if raw.steps == [] {
      return Err(EmptyPlan);
    }
    var steps := seq(|raw.steps|, i requires 0 <= i < |raw.steps| => ToStep(raw.steps[i]));
    var nodes := seq(|raw.steps|, i requires 0 <= i < |raw.steps| => DagNode(raw.steps[i].id));
    var edges := CollectEdges(raw.steps);
    assert steps == ToSteps(raw) && nodes == ToNodes(raw);
    DocumentMatchesGraph(raw);
    r := Plan.New(raw.id, raw.description, steps, DagContract(nodes, edges));
  }
}
