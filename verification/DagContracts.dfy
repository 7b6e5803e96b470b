/** The plan graph: validation with a depth-first cycle search, and Kahn's algorithm over an ordered ready set. */
module DagContracts {
  import opened Wrappers
  import opened Ids
  import opened Digraphs
  import opened Lassos
  import opened Whitespace

  datatype DagNode = DagNode(id: Id)
  datatype DagEdge = DagEdge(from: Id, to: Id)

  datatype DagError =
    | EmptyNodeId
    | DuplicateNodeId(id: Id)
    | UnknownEdgeNode(from: Id, to: Id, known: set<Id>)
    | DuplicateEdge(from: Id, to: Id)
    | CycleDetected(path: seq<Id>)
    | CycleWhileSorting

  datatype NodeState = Visiting | Visited

  function PositionOf(xs: seq<Id>, x: Id): (r: Option<nat>)
    ensures r.Some? ==> r.value < |xs| && xs[r.value] == x && x !in xs[..r.value]
    ensures r.None? ==> x !in xs
  {
    if |xs| == 0 then None
    else if xs[0] == x then Some(0)
    else
      assert xs == [xs[0]] + xs[1..];
      match PositionOf(xs[1..], x)
      case None => None
      case Some(i) => assert xs[..i + 1] == [xs[0]] + xs[1..][..i]; Some(i + 1)
  }

  /** The graph reported by `validate_edges`: every node listed, each with its successors. */
  ghost predicate IsAdjacencyOf(adjacency: map<Id, seq<Id>>, V: set<Id>, E: Edges) {
    && adjacency.Keys == V
    && forall v | v in V :: Distinct(adjacency[v]) && forall w :: w in adjacency[v] <==> (v, w) in E
  }

  ghost predicate IsAscending(adjacency: map<Id, seq<Id>>) {
    forall v | v in adjacency :: Ascends(adjacency[v])
  }

  /** Adjacency lists in ascending order are determined by the graph. */
  lemma AdjacencyIsUnique(a: map<Id, seq<Id>>, b: map<Id, seq<Id>>, V: set<Id>, E: Edges)
    requires IsAdjacencyOf(a, V, E) && IsAscending(a) && IsAdjacencyOf(b, V, E) && IsAscending(b)
    ensures a == b
  {
    hide Ascends;
    forall v | v in V ensures a[v] == b[v] {
      AscendingIsUnique(a[v], b[v]);
    }
  }

  ghost predicate IsVisited(states: map<Id, NodeState>, v: Id) {
    v in states && states[v] == Visited
  }

  /** Wherever the path of the search could have turned to an earlier node, it has been there and is done with it. */
  ghost predicate TurnsLate(V: set<Id>, E: Edges, states: map<Id, NodeState>, path: seq<Id>) {
    && (|path| > 0 ==> forall v | v in V && Less(v, path[0]) :: IsVisited(states, v))
    && forall i | 1 <= i < |path| :: TurnsLateAt(E, states, path[i - 1], path[i])
  }

  ghost predicate TurnsLateAt(E: Edges, states: map<Id, NodeState>, u: Id, v: Id) {
    forall w | (u, w) in E && Less(w, v) :: IsVisited(states, w)
  }

  lemma TurnsLateKeeps(V: set<Id>, E: Edges, before: map<Id, NodeState>, after: map<Id, NodeState>, path: seq<Id>)
    requires TurnsLate(V, E, before, path) && KeepsStates(before, after)
    ensures TurnsLate(V, E, after, path)
  {
    hide Less;
    forall i | 1 <= i < |path| ensures TurnsLateAt(E, after, path[i - 1], path[i]) {
      assert TurnsLateAt(E, before, path[i - 1], path[i]);
      forall w | (path[i - 1], w) in E && Less(w, path[i]) ensures IsVisited(after, w) {
        assert IsVisited(before, w);
      }
    }
    forall v | |path| > 0 && v in V && Less(v, path[0]) ensures IsVisited(after, v) {
      assert IsVisited(before, v);
    }
  }

  lemma TurnsLateDeeper(V: set<Id>, E: Edges, states: map<Id, NodeState>, path: seq<Id>, neighbors: seq<Id>, k: nat)
    requires TurnsLate(V, E, states, path) && |path| > 0 && k < |neighbors|
    requires Ascends(neighbors) && AllVisited(states, neighbors[..k])
    requires forall w | (path[|path| - 1], w) in E :: w in neighbors
    ensures TurnsLate(V, E, states, path + [neighbors[k]])
  {
    hide Less;
    var u, longer := path[|path| - 1], path + [neighbors[k]];
    forall w | (u, w) in E && Less(w, neighbors[k]) ensures IsVisited(states, w) {
      assert w in neighbors;
      var j :| 0 <= j < |neighbors| && neighbors[j] == w;
      LessIsAsymmetricIf(w, neighbors[k]);
      if j >= k {
        LessIsAsymmetricIf(neighbors[k], neighbors[k]);
      }
      assert neighbors[..k][j] == w;
    }
    forall i | 1 <= i < |longer| ensures TurnsLateAt(E, states, longer[i - 1], longer[i]) {
      if i < |path| {
        assert TurnsLateAt(E, states, path[i - 1], path[i]);
      }
    }
  }

  /** The path of the search with an edge back to one of its nodes is the first lasso. */
  lemma StackIsFirstLasso(
    V: set<Id>, E: Edges, states: map<Id, NodeState>, stack: seq<Id>, finished: seq<Id>, neighbor: Id)
    requires SearchInvariant(E, states, stack, finished) && Within(E, V)
    requires |stack| > 0 && (stack[|stack| - 1], neighbor) in E && neighbor in stack
    requires TurnsLate(V, E, states, stack + [neighbor])
    ensures IsLeastLasso(E, stack + [neighbor])
  {
    hide Less;
    var p := stack + [neighbor];
    StackIsLasso(E, stack, neighbor);
    hide IsLasso;
    var dead := Elements(finished);
    forall q, i | IsLasso(E, q) && 0 <= i < |q| ensures q[i] !in dead {
      NoLassoThrough(E, finished, q, i);
    }
    forall i, w | 1 <= i < |p| && (p[i - 1], w) in E && Less(w, p[i]) ensures w in dead {
      assert TurnsLateAt(E, states, p[i - 1], p[i]);
      assert IsVisited(states, w);
    }
    LassoIsLeast(V, E, p, dead);
  }

  lemma StackIsLasso(E: Edges, stack: seq<Id>, neighbor: Id)
    requires Distinct(stack) && forall i | 0 <= i < |stack| - 1 :: (stack[i], stack[i + 1]) in E
    requires |stack| > 0 && (stack[|stack| - 1], neighbor) in E && neighbor in stack
    ensures IsLasso(E, stack + [neighbor])
  {
    var p := stack + [neighbor];
    var i :| 0 <= i < |stack| && stack[i] == neighbor;
    assert p[i] == p[|p| - 1];
  }

  /** What the three-colour search keeps true: the stack is a path of exactly the nodes being visited, and
      `finished` lists the visited nodes so that every edge out of one of them goes to a later entry. */
  ghost predicate SearchInvariant(E: Edges, states: map<Id, NodeState>, stack: seq<Id>, finished: seq<Id>) {
    && Distinct(stack)
    && (forall v :: v in stack <==> v in states && states[v] == Visiting)
    && (forall i | 0 <= i < |stack| - 1 :: (stack[i], stack[i + 1]) in E)
    && Distinct(finished)
    && (forall v :: v in finished <==> v in states && states[v] == Visited)
    && forall i, w | 0 <= i < |finished| && (finished[i], w) in E :: w in finished[i + 1..]
  }

  /** Colours survive: nothing that had one in `before` has another in `after`. */
  ghost predicate KeepsStates(before: map<Id, NodeState>, after: map<Id, NodeState>) {
    forall v :: v in before ==> v in after && after[v] == before[v]
  }

  lemma KeepsStatesTransitive(a: map<Id, NodeState>, b: map<Id, NodeState>, c: map<Id, NodeState>)
    requires KeepsStates(a, b) && KeepsStates(b, c)
    ensures KeepsStates(a, c)
  {
    forall v | v in a ensures v in c && c[v] == a[v] {
      assert v in b;
    }
  }

  lemma ColoursNode(before: map<Id, NodeState>, after: map<Id, NodeState>, node: Id, state: NodeState)
    requires KeepsStates(before, after) && node !in before
    ensures KeepsStates(before, after[node := state])
  {
  }

  ghost predicate AllVisited(states: map<Id, NodeState>, nodes: seq<Id>) {
    forall v | v in nodes :: v in states && states[v] == Visited
  }

  lemma NoneVisitedYet(states: map<Id, NodeState>)
    ensures AllVisited(states, [])
  {
  }

  lemma VisitedOneMore(before: map<Id, NodeState>, after: map<Id, NodeState>, nodes: seq<Id>, k: nat)
    requires KeepsStates(before, after) && k < |nodes| && AllVisited(before, nodes[..k])
    requires nodes[k] in after && after[nodes[k]] == Visited
    ensures AllVisited(after, nodes[..k + 1])
  {
    assert nodes[..k + 1] == nodes[..k] + [nodes[k]];
  }

  lemma NeighborsAreSuccessors(adjacency: map<Id, seq<Id>>, E: Edges, v: Id)
    requires IsAdjacencyOf(adjacency, adjacency.Keys, E) && Within(E, adjacency.Keys) && v in adjacency
    ensures forall k | 0 <= k < |adjacency[v]| :: adjacency[v][k] in adjacency && (v, adjacency[v][k]) in E
    ensures forall w | (v, w) in E :: w in adjacency[v]
  {
    forall k | 0 <= k < |adjacency[v]| ensures adjacency[v][k] in adjacency && (v, adjacency[v][k]) in E {
      assert adjacency[v][k] in adjacency[v];
    }
  }

  lemma StartVisit(E: Edges, states: map<Id, NodeState>, stack: seq<Id>, finished: seq<Id>, node: Id)
    requires SearchInvariant(E, states, stack, finished)
    requires node !in states && (|stack| > 0 ==> (stack[|stack| - 1], node) in E)
    ensures SearchInvariant(E, states[node := Visiting], stack + [node], finished)
  {
  }

  lemma FinishVisit(
    E: Edges, states: map<Id, NodeState>, stack: seq<Id>, finished: seq<Id>, node: Id, neighbors: seq<Id>)
    requires SearchInvariant(E, states, stack + [node], finished)
    requires AllVisited(states, neighbors) && forall w | (node, w) in E :: w in neighbors
    ensures SearchInvariant(E, states[node := Visited], stack, [node] + finished)
  {
    var deeper, later := stack + [node], [node] + finished;
    assert deeper[|stack|] == node && node in deeper;
    assert forall i | 0 <= i < |stack| :: deeper[i] == stack[i];
    forall i, w | 0 <= i < |later| && (later[i], w) in E
      ensures w in later[i + 1..]
    {
      if i > 0 {
        assert later[i] == finished[i - 1] && later[i + 1..] == finished[i..];
      } else {
        assert later[1..] == finished;
      }
    }
    assert forall i | 0 <= i < |stack| - 1 :: (deeper[i], deeper[i + 1]) in E;
  }

  lemma LoopOfStack(E: Edges, stack: seq<Id>, index: nat)
    requires Distinct(stack) && index < |stack| && (stack[|stack| - 1], stack[index]) in E
    requires forall i | 0 <= i < |stack| - 1 :: (stack[i], stack[i + 1]) in E
    ensures IsCycle(E, stack[index..] + [stack[index]])
  {
    var cycle := stack[index..] + [stack[index]];
    forall i | 0 <= i < |cycle| - 1 ensures (cycle[i], cycle[i + 1]) in E {
      assert cycle[i] == stack[index + i];
      if i + 1 < |cycle| - 1 {
        assert cycle[i + 1] == stack[index + i + 1];
      }
    }
  }

  lemma StackLoopIsSimple(stack: seq<Id>, index: nat)
    requires Distinct(stack) && index < |stack|
    ensures Distinct((stack[index..] + [stack[index]])[1..])
  {
    assert (stack[index..] + [stack[index]])[1..] == stack[index + 1..] + [stack[index]];
  }

  /** A node is being visited exactly when it is on the stack, so an edge back to it closes a cycle. */
  lemma StackClosesCycle(E: Edges, states: map<Id, NodeState>, stack: seq<Id>, finished: seq<Id>, neighbor: Id)
    requires SearchInvariant(E, states, stack, finished)
    requires |stack| > 0 && (stack[|stack| - 1], neighbor) in E
    requires neighbor in states && states[neighbor] == Visiting
    ensures PositionOf(stack, neighbor).Some? && neighbor in stack
    ensures var cycle := stack[PositionOf(stack, neighbor).value..] + [neighbor];
            IsCycle(E, cycle) && Distinct(cycle[1..]) && IsLoopOf(stack + [neighbor], cycle)
  {
    hide IsCycle, Distinct, PositionOf;
    assert neighbor in stack;
    var index := PositionOf(stack, neighbor).value;
    LoopOfStack(E, stack, index);
    StackLoopIsSimple(stack, index);
    var p := stack + [neighbor];
    assert p[index] == p[|p| - 1] && p[index..] == stack[index..] + [neighbor];
  }

  /** So what is reported is the first cycle of the graph. */
  lemma ReportsFirstCycle(
    V: set<Id>, E: Edges, states: map<Id, NodeState>, stack: seq<Id>, finished: seq<Id>, neighbor: Id)
    requires SearchInvariant(E, states, stack, finished) && Within(E, V)
    requires |stack| > 0 && (stack[|stack| - 1], neighbor) in E
    requires neighbor in states && states[neighbor] == Visiting
    requires TurnsLate(V, E, states, stack + [neighbor])
    ensures PositionOf(stack, neighbor).Some?
    ensures var cycle := stack[PositionOf(stack, neighbor).value..] + [neighbor];
            IsFirstCycle(E, cycle) && IsCycle(E, cycle) && Distinct(cycle[1..])
  {
    hide SearchInvariant, TurnsLate, IsCycle, Distinct, PositionOf, IsLeastLasso, IsLoopOf;
    StackClosesCycle(E, states, stack, finished, neighbor);
    StackIsFirstLasso(V, E, states, stack, finished, neighbor);
  }

  /** The colouring and the stack that the recursive search shares through mutable references. */
  class CycleSearch {
    const adjacency: map<Id, seq<Id>>
    ghost const E: Edges
    var states: map<Id, NodeState>
    var stack: seq<Id>
    /** Visited nodes, latest first. */
    ghost var finished: seq<Id>

    ghost predicate Valid()
      reads this
    {
      && IsAdjacencyOf(adjacency, adjacency.Keys, E) && Within(E, adjacency.Keys) && IsAscending(adjacency)
      && states.Keys <= adjacency.Keys
      && SearchInvariant(E, states, stack, finished)
    }

    constructor (adjacency: map<Id, seq<Id>>, ghost E: Edges)
      requires IsAdjacencyOf(adjacency, adjacency.Keys, E) && Within(E, adjacency.Keys) && IsAscending(adjacency)
      ensures Valid() && this.adjacency == adjacency && this.E == E && stack == [] && states == map[]
    {
      this.adjacency, this.E := adjacency, E;
      states, stack, finished := map[], [], [];
    }

    method DetectCycle(node: Id) returns (r: Option<seq<Id>>)
      requires Valid() && node in adjacency && node !in states
      requires |stack| > 0 ==> (stack[|stack| - 1], node) in E
      requires TurnsLate(adjacency.Keys, E, states, stack + [node])
      modifies this
      ensures r.None? ==> Valid() && stack == old(stack) && KeepsStates(old(states), states)
      ensures r.None? ==> node in states && states[node] == Visited
      ensures r.Some? ==> IsFirstCycle(E, r.value) && IsCycle(E, r.value) && Distinct(r.value[1..])
      decreases adjacency.Keys - states.Keys
    {
      hide SearchInvariant, Distinct, IsCycle, IsAdjacencyOf, Within, PositionOf, TurnsLate, IsFirstCycle, Ascends, Less, AllVisited;
      StartVisit(E, states, stack, finished, node);
      ColoursNode(states, states, node, Visiting);
      states := states[node := Visiting];
      stack := stack + [node];

      var neighbors := adjacency[node];
      NeighborsAreSuccessors(adjacency, E, node);
      TurnsLateKeeps(adjacency.Keys, E, old(states), states, stack);
      var k := 0;
      NoneVisitedYet(states);
      while k < |neighbors|
        invariant 0 <= k <= |neighbors|
        invariant Valid() && stack == old(stack) + [node]
        invariant node in states && KeepsStates(old(states), states)
        invariant AllVisited(states, neighbors[..k])
        invariant TurnsLate(adjacency.Keys, E, states, stack)
      {
        var neighbor := neighbors[k];
        ghost var before := states;
        TurnsLateDeeper(adjacency.Keys, E, states, stack, neighbors, k);
        if neighbor in states {
          if states[neighbor] == Visiting {
            ReportsFirstCycle(adjacency.Keys, E, states, stack, finished, neighbor);
            var cycle := match PositionOf(stack, neighbor)
              case Some(index) => stack[index..] + [neighbor]
              case None => [neighbor, neighbor];
            return Some(cycle);
          }
        } else {
          var path := DetectCycle(neighbor);
          if path.Some? {
            return path;
          }
          KeepsStatesTransitive(old(states), before, states);
          TurnsLateKeeps(adjacency.Keys, E, before, states, stack);
        }
        VisitedOneMore(before, states, neighbors, k);
        k := k + 1;
      }

      assert neighbors[..k] == neighbors;
      FinishVisit(E, states, old(stack), finished, node, neighbors);
      ColoursNode(old(states), states, node, Visited);
      stack := stack[..|stack| - 1];
      assert stack == old(stack);
      states := states[node := Visited];
      finished := [node] + finished;
      return None;
    }
  }

  function AddEdge(adjacency: map<Id, seq<Id>>, a: Id, b: Id): map<Id, seq<Id>> {
    adjacency[a := (if a in adjacency then adjacency[a] else []) + [b]]
  }

  lemma AddEdgeKeeps(adjacency: map<Id, seq<Id>>, V: set<Id>, E: Edges, a: Id, b: Id)
    requires IsAdjacencyOf(adjacency, V, E) && a in V && (a, b) !in E
    ensures IsAdjacencyOf(AddEdge(adjacency, a, b), V, E + {(a, b)})
  {
    var extended := AddEdge(adjacency, a, b);
    assert b !in adjacency[a];
    assert extended.Keys == V;
  }

  method SortAll(adjacency: map<Id, seq<Id>>, dedup: bool, ghost V: set<Id>, ghost E: Edges)
    returns (sorted: map<Id, seq<Id>>)
    requires IsAdjacencyOf(adjacency, V, E)
    ensures IsAdjacencyOf(sorted, V, E) && IsAscending(sorted)
  {
    hide Ascends, Less, Sort, Dedup;
    sorted := map v | v in adjacency :: if dedup then Dedup(Sort(adjacency[v])) else Sort(adjacency[v]);
    forall v | v in V
      ensures Distinct(sorted[v]) && (forall w :: w in sorted[v] <==> (v, w) in E) && Ascends(sorted[v])
    {
      SortKeepsElements(adjacency[v]);
      SortAscends(adjacency[v]);
      DedupOfDistinct(Sort(adjacency[v]));
    }
  }

  lemma RootTurnsLate(V: set<Id>, E: Edges, states: map<Id, NodeState>, order: seq<Id>, k: nat)
    requires k < |order| && Ascends(order) && (forall x :: x in order <==> x in V)
    requires forall v | v in order[..k] :: IsVisited(states, v)
    ensures TurnsLate(V, E, states, [] + [order[k]])
  {
    hide Less;
    forall v | v in V && Less(v, order[k]) ensures IsVisited(states, v) {
      var j :| 0 <= j < |order| && order[j] == v;
      LessIsAsymmetricIf(v, order[k]);
      LessIsAsymmetricIf(order[k], order[k]);
      assert order[..k][j] == v;
    }
  }

  method ValidateCycleFree(nodeIds: set<Id>, adjacency: map<Id, seq<Id>>, ghost E: Edges) returns (r: Result<(), DagError>)
    requires IsAdjacencyOf(adjacency, nodeIds, E) && Within(E, nodeIds) && IsAscending(adjacency)
    ensures r.Ok? <==> Acyclic(E)
    ensures r.Err? ==>
              r.error.CycleDetected? && IsFirstCycle(E, r.error.path) && IsCycle(E, r.error.path) && Distinct(r.error.path[1..])
  {
    var search := new CycleSearch(adjacency, E);
    var order := InOrder(nodeIds);
    var k := 0;
    while k < |order|
      invariant 0 <= k <= |order|
      invariant search.Valid() && search.stack == []
      invariant forall v | v in order[..k] :: IsVisited(search.states, v)
    {
      if order[k] !in search.states {
        RootTurnsLate(nodeIds, E, search.states, order, k);
        var path := search.DetectCycle(order[k]);
        if path.Some? {
          return Err(CycleDetected(path.value));
        }
      }
      k := k + 1;
    }
    assert order[..k] == order;
    assert IsTopologicalOrder(nodeIds, E, search.finished) by {
      forall v ensures v in search.finished <==> v in nodeIds {
        if v in nodeIds {
          assert v in order;
          assert IsVisited(search.states, v);
        }
      }
      forall i, j | 0 <= i < |search.finished| && 0 <= j < |search.finished|
                    && (search.finished[i], search.finished[j]) in E
        ensures i < j
      {
        assert search.finished[j] in search.finished[i + 1..];
      }
    }
    OrderedIsAcyclic(nodeIds, E, search.finished);
    return Ok(());
  }

  /** Each counter holds the number of predecessors not yet listed. */
  ghost predicate CountsPending(inDegree: map<Id, nat>, V: set<Id>, E: Edges, done: set<Id>) {
    inDegree.Keys == V && forall v | v in V :: inDegree[v] == |Pending(E, done, v)|
  }

  /** What Kahn's loop keeps true: the queue is exactly the set of nodes that are ready. */
  ghost predicate KahnInvariant(
    V: set<Id>, E: Edges, inDegree: map<Id, nat>, queue: set<Id>, sorted: seq<Id>)
  {
    && Distinct(sorted) && Elements(sorted) <= V
    && CountsPending(inDegree, V, E, Elements(sorted))
    && queue == Ready(V, E, Elements(sorted))
    && IsGreedy(V, E, sorted)
  }

  /** The predecessors `v` still waits for, once the node is counted for those already released. */
  ghost function StillPending(E: Edges, done: set<Id>, node: Id, released: set<Id>, v: Id): set<Id> {
    Pending(E, if v in released then done + {node} else done, v)
  }

  /** The state between two decrements, when `node` has just been listed and `released` are its neighbours seen so far. */
  ghost predicate Releasing(
    V: set<Id>, E: Edges, inDegree: map<Id, nat>, queue: set<Id>, done: set<Id>, node: Id, released: set<Id>)
  {
    && inDegree.Keys == V
    && (forall v | v in V :: inDegree[v] == |StillPending(E, done, node, released, v)|)
    && queue == (Ready(V, E, done) - {node}) + set v | v in released && Pending(E, done + {node}, v) == {}
  }

  lemma ReleaseOne(
    V: set<Id>, E: Edges, inDegree: map<Id, nat>, queue: set<Id>, done: set<Id>, node: Id, released: set<Id>, w: Id)
    requires Releasing(V, E, inDegree, queue, done, node, released)
    requires (node, w) in E && w in V && w !in released && node !in done
    ensures w in inDegree && inDegree[w] > 0
    ensures var rest := inDegree[w := inDegree[w] - 1];
            Releasing(V, E, rest, if rest[w] == 0 then queue + {w} else queue, done, node, released + {w})
  {
    hide Pending, Ready;
    PendingAfter(E, done, node, w);
    ghost var now := Pending(E, done + {node}, w);
    assert |Pending(E, done, w)| == |now| + 1;
    var rest := inDegree[w := inDegree[w] - 1];
    assert rest.Keys == V;
    assert rest[w] == |now| && (rest[w] == 0 <==> now == {});
  }

  lemma {:induction false} GreedyIsClosed(V: set<Id>, E: Edges, sorted: seq<Id>, u: Id, v: Id)
    requires IsGreedy(V, E, sorted) && v in sorted && (u, v) in E
    ensures u in sorted
  {
    var i :| 0 <= i < |sorted| && sorted[i] == v;
    assert IsLeast(Ready(V, E, Elements(sorted[..i])), sorted[i]);
    if u !in Elements(sorted[..i]) {
      PendingAfter(E, Elements(sorted[..i]), u, v);
    }
  }

  /** Releasing the last neighbour makes the counters and the queue right for the longer list. */
  lemma ReleasedAll(
    V: set<Id>, E: Edges, inDegree: map<Id, nat>, queue: set<Id>, sorted: seq<Id>, node: Id, released: set<Id>)
    requires Releasing(V, E, inDegree, queue, Elements(sorted), node, released)
    requires IsGreedy(V, E, sorted) && node in Ready(V, E, Elements(sorted))
    requires released <= V && forall w :: w in released <==> (node, w) in E
    ensures CountsPending(inDegree, V, E, Elements(sorted) + {node})
    ensures queue == Ready(V, E, Elements(sorted) + {node})
  {
    ReleasedCounts(V, E, inDegree, queue, Elements(sorted), node, released);
    ReleasedQueue(V, E, inDegree, queue, sorted, node, released);
  }

  lemma ReleasedCounts(
    V: set<Id>, E: Edges, inDegree: map<Id, nat>, queue: set<Id>, done: set<Id>, node: Id, released: set<Id>)
    requires Releasing(V, E, inDegree, queue, done, node, released)
    requires forall w :: w in released <==> (node, w) in E
    ensures CountsPending(inDegree, V, E, done + {node})
  {
    hide Pending, Ready;
    forall v | v in V ensures inDegree[v] == |Pending(E, done + {node}, v)| {
      PendingAfter(E, done, node, v);
      assert inDegree[v] == |StillPending(E, done, node, released, v)|;
    }
  }

  lemma ReleasedQueue(
    V: set<Id>, E: Edges, inDegree: map<Id, nat>, queue: set<Id>, sorted: seq<Id>, node: Id, released: set<Id>)
    requires Releasing(V, E, inDegree, queue, Elements(sorted), node, released)
    requires IsGreedy(V, E, sorted) && node in Ready(V, E, Elements(sorted))
    requires released <= V && forall w :: w in released <==> (node, w) in E
    ensures queue == Ready(V, E, Elements(sorted) + {node})
  {
    var done := Elements(sorted);
    hide Pending, IsGreedy;
    forall v ensures v in queue <==> v in Ready(V, E, done + {node}) {
      PendingAfter(E, done, node, v);
      if v in released && v in sorted {
        GreedyIsClosed(V, E, sorted, node, v);
      }
    }
  }

  lemma ListNode(
    V: set<Id>, E: Edges, inDegree: map<Id, nat>, queue: set<Id>, sorted: seq<Id>, node: Id)
    requires Distinct(sorted) && Elements(sorted) <= V && IsGreedy(V, E, sorted)
    requires IsLeast(Ready(V, E, Elements(sorted)), node)
    requires CountsPending(inDegree, V, E, Elements(sorted) + {node})
    requires queue == Ready(V, E, Elements(sorted) + {node})
    ensures KahnInvariant(V, E, inDegree, queue, sorted + [node])
    ensures V - Elements(sorted + [node]) < V - Elements(sorted)
  {
    hide CountsPending, Pending;
    var longer := sorted + [node];
    assert Elements(longer) == Elements(sorted) + {node};
    assert forall i | 0 <= i < |sorted| :: longer[..i] == sorted[..i];
    assert longer[..|sorted|] == sorted;
  }

  lemma StartRelease(V: set<Id>, E: Edges, inDegree: map<Id, nat>, queue: set<Id>, sorted: seq<Id>, node: Id)
    requires KahnInvariant(V, E, inDegree, queue, sorted) && IsLeast(queue, node)
    ensures node in V && node !in Elements(sorted)
    ensures Releasing(V, E, inDegree, queue - {node}, Elements(sorted), node, {})
  {
  }

  lemma FinishRelease(
    V: set<Id>, E: Edges, before: map<Id, nat>, ready: set<Id>,
    inDegree: map<Id, nat>, queue: set<Id>, sorted: seq<Id>, node: Id, neighbors: seq<Id>)
    requires KahnInvariant(V, E, before, ready, sorted) && IsLeast(ready, node)
    requires Releasing(V, E, inDegree, queue, Elements(sorted), node, Elements(neighbors))
    requires Within(E, V) && forall w :: w in neighbors <==> (node, w) in E
    ensures KahnInvariant(V, E, inDegree, queue, sorted + [node])
    ensures V - Elements(sorted + [node]) < V - Elements(sorted)
  {
    assert Elements(neighbors) <= V;
    hide Releasing;
    ReleasedAll(V, E, inDegree, queue, sorted, node, Elements(neighbors));
    ListNode(V, E, inDegree, queue, sorted, node);
  }

  lemma StartKahn(V: set<Id>, E: Edges, inDegree: map<Id, nat>)
    requires CountsPending(inDegree, V, E, {})
    ensures KahnInvariant(V, E, inDegree, set v | v in inDegree && inDegree[v] == 0, [])
  {
    assert Elements<Id>([]) == {};
  }

  /** An empty queue means that every node is listed: anything left over would hold a cycle. */
  lemma NothingIsLeft(V: set<Id>, E: Edges, done: set<Id>)
    requires Acyclic(E) && Within(E, V) && done <= V && Ready(V, E, done) == {}
    ensures done == V
  {
    hide Acyclic, Within, Ready;
    if V - done != {} {
      ReadyExists(V, E, done);
    }
    assert forall v | v in V :: v !in V - done;
  }

  lemma FinishKahn(V: set<Id>, E: Edges, inDegree: map<Id, nat>, sorted: seq<Id>)
    requires KahnInvariant(V, E, inDegree, {}, sorted) && Acyclic(E) && Within(E, V)
    ensures IsLeastTopologicalOrder(V, E, sorted) && |sorted| == |V|
  {
    hide Acyclic, Within, Ready, IsGreedy, Distinct, Elements, CountsPending, IsLeastTopologicalOrder;
    NothingIsLeft(V, E, Elements(sorted));
    GreedyIsLeast(V, E, sorted);
    DistinctCardinality(sorted);
  }

  /** Decrements the counter of every neighbour of the node just listed, and queues those that reach zero. */
  method ReleaseNeighbors(
    inDegree: map<Id, nat>, queue: set<Id>, neighbors: seq<Id>,
    ghost V: set<Id>, ghost E: Edges, ghost done: set<Id>, ghost node: Id)
    returns (counts: map<Id, nat>, ready: set<Id>)
    requires Releasing(V, E, inDegree, queue, done, node, {})
    requires Distinct(neighbors) && (forall w | w in neighbors :: (node, w) in E) && Within(E, V) && node !in done
    ensures Releasing(V, E, counts, ready, done, node, Elements(neighbors))
  {
    hide Releasing;
    counts, ready := inDegree, queue;
    ghost var released := {};
    for k := 0 to |neighbors|
      invariant released == set j | 0 <= j < k :: neighbors[j]
      invariant Releasing(V, E, counts, ready, done, node, released)
    {
      var neighbor := neighbors[k];
      assert neighbor in neighbors && (node, neighbor) in E;
      ReleaseOne(V, E, counts, ready, done, node, released, neighbor);
      released := released + {neighbor};
      if neighbor in counts {
        counts := counts[neighbor := counts[neighbor] - 1];
        if counts[neighbor] == 0 {
          ready := ready + {neighbor};
        }
      }
    }
    assert released == Elements(neighbors);
  }

  /** Kahn's loop: lists the least ready node until none is ready. */
  method SortFrom(counts: map<Id, nat>, adjacency: map<Id, seq<Id>>, ghost V: set<Id>, ghost E: Edges)
    returns (sorted: seq<Id>)
    requires CountsPending(counts, V, E, {}) && IsAdjacencyOf(adjacency, V, E)
    requires Acyclic(E) && Within(E, V)
    ensures IsLeastTopologicalOrder(V, E, sorted) && |sorted| == |V|
  {
    hide KahnInvariant, Releasing, CountsPending, Acyclic, Within, Distinct, IsLeastTopologicalOrder, IsLeast;
    var inDegree := counts;
    StartKahn(V, E, inDegree);
    var queue := set v | v in inDegree && inDegree[v] == 0;
    sorted := [];
    while queue != {}
      invariant KahnInvariant(V, E, inDegree, queue, sorted)
      decreases V - Elements(sorted)
    {
      var node, rest := PopFirst(queue);
      StartRelease(V, E, inDegree, queue, sorted, node);
      var counts, ready := ReleaseNeighbors(inDegree, rest, adjacency[node], V, E, Elements(sorted), node);
      FinishRelease(V, E, inDegree, queue, counts, ready, sorted, node, adjacency[node]);
      inDegree, queue := counts, ready;
      sorted := sorted + [node];
    }
    FinishKahn(V, E, inDegree, sorted);
  }

  datatype DagContract = DagContract(nodes: seq<DagNode>, edges: seq<DagEdge>) {

    ghost function V(): set<Id> {
      NodesBefore(|nodes|)
    }

    ghost function E(): Edges {
      EdgesBefore(|edges|)
    }

    ghost function NodesBefore(n: nat): set<Id>
      requires n <= |nodes|
    {
      if n == 0 then {} else NodesBefore(n - 1) + {nodes[n - 1].id}
    }

    ghost function EdgesBefore(n: nat): Edges
      requires n <= |edges|
    {
      if n == 0 then {} else EdgesBefore(n - 1) + {(edges[n - 1].from, edges[n - 1].to)}
    }

    /** The first `n` nodes have non-blank ids, each new when it is listed. */
    ghost predicate NodesOk(n: nat)
      requires n <= |nodes|
    {
      n > 0 ==> NodesOk(n - 1) && !Blank(nodes[n - 1].id) && nodes[n - 1].id !in NodesBefore(n - 1)
    }

    /** The first `n` edges join known nodes, each new when it is listed. */
    ghost predicate EdgesOk(n: nat)
      requires n <= |edges|
    {
      n > 0 ==>
        var e := edges[n - 1];
        EdgesOk(n - 1) && e.from in V() && e.to in V() && (e.from, e.to) !in EdgesBefore(n - 1)
    }

    ghost predicate WellFormed() {
      NodesOk(|nodes|) && EdgesOk(|edges|)
    }

    ghost predicate Valid() {
      WellFormed() && Acyclic(E())
    }

    lemma {:induction false} NodesOkPrefix(k: nat, n: nat)
      requires k <= n <= |nodes| && NodesOk(n)
      ensures NodesOk(k)
    {
      if k < n {
        NodesOkPrefix(k, n - 1);
      }
    }

    lemma {:induction false} EdgesOkPrefix(k: nat, n: nat)
      requires k <= n <= |edges| && EdgesOk(n)
      ensures EdgesOk(k)
    {
      if k < n {
        EdgesOkPrefix(k, n - 1);
      }
    }

    lemma {:induction false} NodeCount(n: nat)
      requires n <= |nodes| && NodesOk(n)
      ensures |NodesBefore(n)| == n
    {
      if n > 0 {
        NodeCount(n - 1);
      }
    }

    lemma {:induction false} EdgesAreWithin(n: nat)
      requires n <= |edges| && EdgesOk(n)
      ensures Within(EdgesBefore(n), V())
    {
      if n > 0 {
        EdgesAreWithin(n - 1);
      }
    }

    lemma {:induction false} NodesBeforeMeaning(n: nat)
      requires n <= |nodes|
      ensures forall v :: v in NodesBefore(n) <==> exists i :: 0 <= i < n && nodes[i].id == v
    {
      if n > 0 {
        NodesBeforeMeaning(n - 1);
      }
    }

    lemma {:induction false} EdgesBeforeMeaning(n: nat)
      requires n <= |edges|
      ensures forall a, b :: (a, b) in EdgesBefore(n) <==> exists i :: 0 <= i < n && edges[i] == DagEdge(a, b)
    {
      if n > 0 {
        EdgesBeforeMeaning(n - 1);
      }
    }

    lemma {:induction false} NodesOkMeaning(n: nat)
      requires n <= |nodes|
      ensures NodesOk(n) <==>
              (forall i | 0 <= i < n :: !Blank(nodes[i].id)) && forall i, j | 0 <= i < j < n :: nodes[i].id != nodes[j].id
    {
      if n > 0 {
        NodesOkMeaning(n - 1);
        NodesBeforeMeaning(n - 1);
      }
    }

    lemma {:induction false} EdgesOkMeaning(n: nat)
      requires n <= |edges|
      ensures EdgesOk(n) <==>
              (forall i | 0 <= i < n :: edges[i].from in V() && edges[i].to in V()) && forall i, j | 0 <= i < j < n :: edges[i] != edges[j]
    {
      if n > 0 {
        EdgesOkMeaning(n - 1);
        EdgesBeforeMeaning(n - 1);
      }
    }

    /** Validity in the documentation's terms: non-blank unique ids, unique edges between known nodes, no cycle. */
    lemma ValidMeaning()
      ensures Valid() <==>
              && (forall i | 0 <= i < |nodes| :: !Blank(nodes[i].id))
              && (forall i, j | 0 <= i < j < |nodes| :: nodes[i].id != nodes[j].id)
              && (forall i | 0 <= i < |edges| :: edges[i].from in V() && edges[i].to in V())
              && (forall i, j | 0 <= i < j < |edges| :: edges[i] != edges[j])
              && forall p :: !IsCycle(E(), p)
    {
      NodesOkMeaning(|nodes|);
      EdgesOkMeaning(|edges|);
    }

    ghost predicate IdsAreFine() {
      && (forall i | 0 <= i < |nodes| :: !Blank(nodes[i].id))
      && forall i, j | 0 <= i < j < |nodes| :: nodes[i].id != nodes[j].id
    }

    ghost predicate EdgesAreKnown() {
      forall i | 0 <= i < |edges| :: edges[i].from in V() && edges[i].to in V()
    }

    lemma ValidParts()
      ensures Valid() <==> IdsAreFine() && EdgesAreKnown() && Distinct(edges) && Acyclic(E())
    {
      NodesOkMeaning(|nodes|);
      EdgesOkMeaning(|edges|);
      hide DagContract.V, DagContract.E, DagContract.NodesOk, DagContract.EdgesOk, Acyclic, Blank;
    }

    /** `e` names the first thing that is wrong, in the order in which the checks are made. */
    ghost predicate Diagnoses(e: DagError) {
      match e
      case EmptyNodeId =>
        exists i :: 0 <= i < |nodes| && NodesOk(i) && Blank(nodes[i].id)
      case DuplicateNodeId(id) =>
        exists i :: 0 <= i < |nodes| && NodesOk(i) && !Blank(id) && nodes[i].id == id && id in NodesBefore(i)
      case UnknownEdgeNode(a, b, known) =>
        NodesOk(|nodes|) && known == V() && !(a in known && b in known)
        && exists i :: 0 <= i < |edges| && EdgesOk(i) && edges[i] == DagEdge(a, b)
      case DuplicateEdge(a, b) =>
        NodesOk(|nodes|) && a in V() && b in V()
        && exists i :: 0 <= i < |edges| && EdgesOk(i) && edges[i] == DagEdge(a, b) && (a, b) in EdgesBefore(i)
      case CycleDetected(path) =>
        WellFormed() && IsFirstCycle(E(), path) && IsCycle(E(), path) && Distinct(path[1..])
      case CycleWhileSorting =>
        false
    }

    lemma FirstBadNode(i: nat, j: nat)
      requires i < |nodes| && j < |nodes| && NodesOk(i) && NodesOk(j) && !NodesOk(i + 1) && !NodesOk(j + 1)
      ensures i == j
    {
      if i < j {
        NodesOkPrefix(i + 1, j);
      } else if j < i {
        NodesOkPrefix(j + 1, i);
      }
    }

    lemma FirstBadEdge(i: nat, j: nat)
      requires i < |edges| && j < |edges| && EdgesOk(i) && EdgesOk(j) && !EdgesOk(i + 1) && !EdgesOk(j + 1)
      ensures i == j
    {
      if i < j {
        EdgesOkPrefix(i + 1, j);
      } else if j < i {
        EdgesOkPrefix(j + 1, i);
      }
    }

    ghost predicate BlamesNode(e: DagError) {
      e.EmptyNodeId? || e.DuplicateNodeId?
    }

    ghost predicate BlamesEdge(e: DagError) {
      e.UnknownEdgeNode? || e.DuplicateEdge?
    }

    lemma BlamedNode(e: DagError) returns (i: nat)
      requires Diagnoses(e) && BlamesNode(e)
      ensures i < |nodes| && NodesOk(i) && !NodesOk(i + 1)
      ensures if e.EmptyNodeId? then Blank(nodes[i].id) else !Blank(nodes[i].id) && e.id == nodes[i].id
    {
      if e.EmptyNodeId? {
        i :| 0 <= i < |nodes| && NodesOk(i) && Blank(nodes[i].id);
      } else {
        i :| 0 <= i < |nodes| && NodesOk(i) && nodes[i].id == e.id && e.id in NodesBefore(i);
      }
    }

    lemma BlamedEdge(e: DagError) returns (i: nat)
      requires Diagnoses(e) && BlamesEdge(e)
      ensures NodesOk(|nodes|) && i < |edges| && EdgesOk(i) && !EdgesOk(i + 1)
      ensures if e.UnknownEdgeNode? then edges[i] == DagEdge(e.from, e.to) && e.known == V() && !(e.from in V() && e.to in V())
              else edges[i] == DagEdge(e.from, e.to) && e.from in V() && e.to in V()
    {
      if e.UnknownEdgeNode? {
        i :| 0 <= i < |edges| && EdgesOk(i) && edges[i] == DagEdge(e.from, e.to);
      } else {
        i :| 0 <= i < |edges| && EdgesOk(i) && edges[i] == DagEdge(e.from, e.to) && (e.from, e.to) in EdgesBefore(i);
      }
    }

    lemma BlameIsRight(e: DagError)
      requires Diagnoses(e)
      ensures BlamesNode(e) <==> !NodesOk(|nodes|)
      ensures BlamesEdge(e) <==> NodesOk(|nodes|) && !EdgesOk(|edges|)
      ensures !BlamesNode(e) && !BlamesEdge(e) ==> e.CycleDetected?
    {
      hide DagContract.NodesOk, DagContract.EdgesOk, IsFirstCycle, IsCycle;
      if BlamesNode(e) {
        var i := BlamedNode(e);
        if NodesOk(|nodes|) {
          NodesOkPrefix(i + 1, |nodes|);
        }
      } else if BlamesEdge(e) {
        var i := BlamedEdge(e);
        if EdgesOk(|edges|) {
          EdgesOkPrefix(i + 1, |edges|);
        }
      }
    }

    lemma OnlyCycleIsWrong(e: DagError)
      requires WellFormed() && Diagnoses(e)
      ensures e.CycleDetected? && IsFirstCycle(E(), e.path)
    {
      BlameIsRight(e);
      hide DagContract.NodesOk, DagContract.EdgesOk, IsFirstCycle, IsCycle, DagContract.V, DagContract.E;
    }

    /** A graph has one diagnosis at most, so the error reported is determined by the graph. */
    lemma DiagnosisIsUnique(e: DagError, f: DagError)
      requires Diagnoses(e) && Diagnoses(f)
      ensures e == f
    {
      BlameIsRight(e);
      BlameIsRight(f);
      hide DagContract.NodesOk, DagContract.EdgesOk, IsFirstCycle, IsCycle, DagContract.V, DagContract.E;
      if BlamesNode(e) {
        var i := BlamedNode(e);
        var j := BlamedNode(f);
        FirstBadNode(i, j);
      } else if BlamesEdge(e) {
        var i := BlamedEdge(e);
        var j := BlamedEdge(f);
        FirstBadEdge(i, j);
      } else {
        FirstCycleIsUnique(E(), e.path, f.path);
      }
    }

    method ValidateNodes() returns (r: Result<set<Id>, DagError>)
      ensures r.Ok? <==> NodesOk(|nodes|)
      ensures r.Ok? ==> r.value == V()
      ensures r.Err? ==> Diagnoses(r.error)
    {
      var nodeIds: set<Id> := {};
      for k := 0 to |nodes|
        invariant NodesOk(k) && nodeIds == NodesBefore(k)
      {
        var id := nodes[k].id;
        if NodesOk(|nodes|) {
          NodesOkPrefix(k + 1, |nodes|);
        }
        if Blank(id) {
          return Err(EmptyNodeId);
        }
        if id in nodeIds {
          return Err(DuplicateNodeId(id));
        }
        nodeIds := nodeIds + {id};
      }
      return Ok(nodeIds);
    }

    lemma StartsUnlinked(adjacency: map<Id, seq<Id>>)
      requires adjacency == map v | v in V() :: []
      ensures IsAdjacencyOf(adjacency, V(), EdgesBefore(0))
    {
    }

    method ValidateEdges(nodeIds: set<Id>) returns (r: Result<map<Id, seq<Id>>, DagError>)
      requires NodesOk(|nodes|) && nodeIds == V()
      ensures r.Ok? <==> EdgesOk(|edges|)
      ensures r.Ok? ==> IsAdjacencyOf(r.value, V(), E()) && IsAscending(r.value)
      ensures r.Err? ==> Diagnoses(r.error)
    {
      hide V, NodesOk, IsAdjacencyOf, AddEdge;
      var adjacency: map<Id, seq<Id>> := map v | v in nodeIds :: [];
      StartsUnlinked(adjacency);
      var seen: set<(Id, Id)> := {};
      for k := 0 to |edges|
        invariant EdgesOk(k) && seen == EdgesBefore(k)
        invariant IsAdjacencyOf(adjacency, V(), EdgesBefore(k))
      {
        var edge := edges[k];
        if EdgesOk(|edges|) {
          EdgesOkPrefix(k + 1, |edges|);
        }
        if edge.from !in nodeIds || edge.to !in nodeIds {
          return Err(UnknownEdgeNode(edge.from, edge.to, nodeIds));
        }
        if (edge.from, edge.to) in seen {
          return Err(DuplicateEdge(edge.from, edge.to));
        }
        seen := seen + {(edge.from, edge.to)};
        AddEdgeKeeps(adjacency, V(), EdgesBefore(k), edge.from, edge.to);
        adjacency := AddEdge(adjacency, edge.from, edge.to);
      }
      adjacency := SortAll(adjacency, true, V(), E());
      return Ok(adjacency);
    }

    method Validate() returns (r: Result<(), DagError>)
      ensures r.Ok? <==> Valid()
      ensures r.Err? ==> Diagnoses(r.error)
    {
      var nodeIds :- ValidateNodes();
      var adjacency :- ValidateEdges(nodeIds);
      EdgesAreWithin(|edges|);
      r := ValidateCycleFree(nodeIds, adjacency, E());
    }

    /** The counters and successor lists that Kahn's algorithm starts from. */
    method CountDegrees() returns (inDegree: map<Id, nat>, adjacency: map<Id, seq<Id>>)
      requires WellFormed()
      ensures CountsPending(inDegree, V(), E(), {}) && IsAdjacencyOf(adjacency, V(), E())
    {
      inDegree, adjacency := map[], map[];
      for k := 0 to |nodes|
        invariant inDegree.Keys == adjacency.Keys == NodesBefore(k)
        invariant forall v | v in inDegree :: inDegree[v] == 0 && adjacency[v] == []
      {
        inDegree := inDegree[nodes[k].id := 0];
        adjacency := adjacency[nodes[k].id := []];
      }
      StartsUncounted(inDegree, adjacency);
      inDegree, adjacency := CountEdges(inDegree, adjacency);
    }

    method CountEdges(degrees: map<Id, nat>, successors: map<Id, seq<Id>>)
      returns (inDegree: map<Id, nat>, adjacency: map<Id, seq<Id>>)
      requires WellFormed()
      requires CountsPending(degrees, V(), EdgesBefore(0), {}) && IsAdjacencyOf(successors, V(), EdgesBefore(0))
      ensures CountsPending(inDegree, V(), E(), {}) && IsAdjacencyOf(adjacency, V(), E())
    {
      hide V, WellFormed, IsAdjacencyOf, CountsPending, EdgesBefore, EdgesOk, Pending, AddEdge;
      inDegree, adjacency := degrees, successors;
      for k := 0 to |edges|
        invariant CountsPending(inDegree, V(), EdgesBefore(k), {})
        invariant IsAdjacencyOf(adjacency, V(), EdgesBefore(k))
      {
        var edge := edges[k];
        CountStep(k, inDegree, adjacency);
        if edge.to in inDegree {
          inDegree := inDegree[edge.to := inDegree[edge.to] + 1];
        }
        if edge.from in adjacency {
          adjacency := AddEdge(adjacency, edge.from, edge.to);
        }
      }
      adjacency := SortAll(adjacency, false, V(), E());
    }

    lemma CountStep(k: nat, inDegree: map<Id, nat>, adjacency: map<Id, seq<Id>>)
      requires WellFormed() && k < |edges|
      requires CountsPending(inDegree, V(), EdgesBefore(k), {}) && IsAdjacencyOf(adjacency, V(), EdgesBefore(k))
      ensures edges[k].to in inDegree && edges[k].from in adjacency
      ensures CountsPending(inDegree[edges[k].to := inDegree[edges[k].to] + 1], V(), EdgesBefore(k + 1), {})
      ensures IsAdjacencyOf(AddEdge(adjacency, edges[k].from, edges[k].to), V(), EdgesBefore(k + 1))
    {
      EdgesOkPrefix(k + 1, |edges|);
      CountOne(inDegree, EdgesBefore(k), edges[k].from, edges[k].to);
      AddEdgeKeeps(adjacency, V(), EdgesBefore(k), edges[k].from, edges[k].to);
    }

    lemma StartsUncounted(inDegree: map<Id, nat>, adjacency: map<Id, seq<Id>>)
      requires inDegree.Keys == adjacency.Keys == V()
      requires forall v | v in inDegree :: inDegree[v] == 0 && adjacency[v] == []
      ensures CountsPending(inDegree, V(), EdgesBefore(0), {}) && IsAdjacencyOf(adjacency, V(), EdgesBefore(0))
    {
      assert forall v :: Pending(EdgesBefore(0), {}, v) == {};
    }

    lemma CountOne(inDegree: map<Id, nat>, F: Edges, a: Id, b: Id)
      requires CountsPending(inDegree, V(), F, {}) && (a, b) !in F && b in V()
      ensures CountsPending(inDegree[b := inDegree[b] + 1], V(), F + {(a, b)}, {})
    {
      var G := F + {(a, b)};
      assert Pending(G, {}, b) == Pending(F, {}, b) + {a} by {
        assert (a, b) in G;
      }
      assert a !in Pending(F, {}, b);
      forall v | v in V() && v != b ensures Pending(G, {}, v) == Pending(F, {}, v) {
        assert forall e :: e in G && e.1 == v <==> e in F && e.1 == v;
      }
    }

    /** Kahn's algorithm. Every decrement stays above zero, and the length check at the end never fails. */
    method TopologicalSort() returns (r: Result<seq<Id>, DagError>)
      ensures r.Ok? <==> Valid()
      ensures r.Ok? ==> IsLeastTopologicalOrder(V(), E(), r.value) && |r.value| == |nodes|
      ensures r.Err? ==> Diagnoses(r.error)
    {
      var _ :- Validate();
      ghost var V, E := V(), E();
      EdgesAreWithin(|edges|);
      NodeCount(|nodes|);
      var inDegree, adjacency := CountDegrees();
      var order := SortFrom(inDegree, adjacency, V, E);
      if |order| != |nodes| {
        return Err(CycleWhileSorting);
      }
      return Ok(order);
    }
  }

  lemma SameNodes(a: DagContract, b: DagContract)
    requires multiset(a.nodes) == multiset(b.nodes)
    ensures a.V() <= b.V()
  {
    a.NodesBeforeMeaning(|a.nodes|);
    b.NodesBeforeMeaning(|b.nodes|);
    forall v | v in a.V() ensures v in b.V() {
      var i :| 0 <= i < |a.nodes| && a.nodes[i].id == v;
      assert a.nodes[i] in multiset(b.nodes);
    }
  }

  lemma SameEdges(a: DagContract, b: DagContract)
    requires multiset(a.edges) == multiset(b.edges)
    ensures a.E() <= b.E()
  {
    a.EdgesBeforeMeaning(|a.edges|);
    b.EdgesBeforeMeaning(|b.edges|);
    forall e | e in a.E() ensures e in b.E() {
      var i :| 0 <= i < |a.edges| && a.edges[i] == DagEdge(e.0, e.1);
      assert a.edges[i] in multiset(b.edges);
      assert (e.0, e.1) in b.E();
    }
  }

  lemma SameForm(a: DagContract, b: DagContract)
    requires multiset(a.nodes) == multiset(b.nodes) && multiset(a.edges) == multiset(b.edges)
    requires a.V() == b.V() && a.WellFormed()
    ensures b.WellFormed()
  {
    a.NodesOkMeaning(|a.nodes|);
    a.EdgesOkMeaning(|a.edges|);
    b.NodesOkMeaning(|b.nodes|);
    b.EdgesOkMeaning(|b.edges|);
    hide DagContract.NodesOk, DagContract.EdgesOk, DagContract.V;
    DistinctIsCounting(a.nodes, b.nodes);
    DistinctIsCounting(a.edges, b.edges);
    forall i, j | 0 <= i < j < |b.nodes| ensures b.nodes[i].id != b.nodes[j].id {
      assert b.nodes[i] != b.nodes[j];
    }
    forall i | 0 <= i < |b.nodes| ensures !Blank(b.nodes[i].id) {
      assert b.nodes[i] in multiset(a.nodes);
    }
    forall i | 0 <= i < |b.edges| ensures b.edges[i].from in b.V() && b.edges[i].to in b.V() {
      assert b.edges[i] in multiset(a.edges);
    }
  }

  lemma SameGraph(a: DagContract, b: DagContract)
    requires multiset(a.nodes) == multiset(b.nodes) && multiset(a.edges) == multiset(b.edges)
    ensures a.V() == b.V() && a.E() == b.E() && (a.WellFormed() <==> b.WellFormed())
  {
    hide DagContract.WellFormed, DagContract.V, DagContract.E;
    SameNodes(a, b);
    SameNodes(b, a);
    SameEdges(a, b);
    SameEdges(b, a);
    if a.WellFormed() {
      SameForm(a, b);
    }
    if b.WellFormed() {
      SameForm(b, a);
    }
  }

  /** Neither validity nor the order found depends on how nodes and edges were listed. */
  lemma ListingOrderIsIrrelevant(a: DagContract, b: DagContract, s: seq<Id>, t: seq<Id>)
    requires multiset(a.nodes) == multiset(b.nodes) && multiset(a.edges) == multiset(b.edges)
    ensures a.Valid() <==> b.Valid()
    ensures IsLeastTopologicalOrder(a.V(), a.E(), s) && IsLeastTopologicalOrder(b.V(), b.E(), t) ==> s == t
  {
    SameGraph(a, b);
    hide DagContract.WellFormed, DagContract.V, DagContract.E, IsLeastTopologicalOrder, Acyclic;
    if IsLeastTopologicalOrder(a.V(), a.E(), s) && IsLeastTopologicalOrder(b.V(), b.E(), t) {
      LeastOrderIsUnique(a.V(), a.E(), s, t);
    }
  }

  /** Nor does the cycle that is reported. */
  lemma SameCycleIsReported(a: DagContract, b: DagContract, e: DagError, f: DagError)
    requires multiset(a.nodes) == multiset(b.nodes) && multiset(a.edges) == multiset(b.edges)
    requires a.WellFormed() && a.Diagnoses(e) && b.Diagnoses(f)
    ensures e.CycleDetected? && e == f
  {
    hide DagContract.WellFormed, DagContract.V, DagContract.E, DagContract.Diagnoses, IsFirstCycle;
    SameGraph(a, b);
    a.OnlyCycleIsWrong(e);
    b.OnlyCycleIsWrong(f);
    FirstCycleIsUnique(a.E(), e.path, f.path);
  }
}
