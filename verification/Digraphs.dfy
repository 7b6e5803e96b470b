/** Walks, cycles and topological orders of a finite directed graph given by its set of edges. */
module Digraphs {
  import opened Ids

  type Edges = set<(Id, Id)>

  ghost predicate IsWalk(E: Edges, p: seq<Id>) {
    |p| >= 1 && forall i | 0 <= i < |p| - 1 :: (p[i], p[i + 1]) in E
  }

  ghost predicate IsWalkFromTo(E: Edges, p: seq<Id>, a: Id, b: Id) {
    |p| >= 2 && IsWalk(E, p) && p[0] == a && p[|p| - 1] == b
  }

  /** `b` is reached from `a` over one or more edges. */
  ghost predicate Reaches(E: Edges, a: Id, b: Id) {
    exists p :: IsWalkFromTo(E, p, a, b)
  }

  ghost predicate IsCycle(E: Edges, p: seq<Id>) {
    |p| >= 2 && IsWalk(E, p) && p[0] == p[|p| - 1]
  }

  ghost predicate Acyclic(E: Edges) {
    forall p :: !IsCycle(E, p)
  }

  ghost predicate Within(E: Edges, V: set<Id>) {
    forall e | e in E :: e.0 in V && e.1 in V
  }

  ghost predicate IsTopologicalOrder(V: set<Id>, E: Edges, order: seq<Id>) {
    && Distinct(order)
    && (forall v :: v in order <==> v in V)
    && forall i, j | 0 <= i < |order| && 0 <= j < |order| && (order[i], order[j]) in E :: i < j
  }

  /** The predecessors of `v` that are not yet in `done`. */
  ghost function Pending(E: Edges, done: set<Id>, v: Id): set<Id> {
    set e | e in E && e.1 == v && e.0 !in done :: e.0
  }

  /** The nodes that may come next once `done` has been listed. */
  ghost function Ready(V: set<Id>, E: Edges, done: set<Id>): set<Id> {
    set v | v in V && v !in done && Pending(E, done, v) == {}
  }

  lemma EdgeReaches(E: Edges, a: Id, b: Id)
    requires (a, b) in E
    ensures Reaches(E, a, b)
  {
    assert IsWalkFromTo(E, [a, b], a, b);
  }

  lemma ReachesThenEdge(E: Edges, a: Id, b: Id, c: Id)
    requires Reaches(E, a, b) && (b, c) in E
    ensures Reaches(E, a, c)
  {
    var p :| IsWalkFromTo(E, p, a, b);
    assert IsWalkFromTo(E, p + [c], a, c);
  }

  /** Along a walk the positions in a topological order grow. */
  lemma {:induction false} WalkGoesForward(V: set<Id>, E: Edges, order: seq<Id>, p: seq<Id>) returns (i: nat, j: nat)
    requires IsTopologicalOrder(V, E, order) && Within(E, V)
    requires |p| >= 2 && IsWalk(E, p)
    ensures i < j < |order| && order[i] == p[0] && order[j] == p[|p| - 1]
  {
    assert (p[0], p[1]) in E;
    i :| 0 <= i < |order| && order[i] == p[0];
    if |p| == 2 {
      j :| 0 <= j < |order| && order[j] == p[1];
    } else {
      var q := p[1..];
      assert IsWalk(E, q) by {
        forall k | 0 <= k < |q| - 1 ensures (q[k], q[k + 1]) in E {
          assert (p[k + 1], p[k + 1 + 1]) in E;
        }
      }
      var m, n := WalkGoesForward(V, E, order, q);
      j := n;
    }
  }

  lemma OrderedIsAcyclic(V: set<Id>, E: Edges, order: seq<Id>)
    requires IsTopologicalOrder(V, E, order) && Within(E, V)
    ensures Acyclic(E)
  {
    forall p ensures !IsCycle(E, p) {
      if IsCycle(E, p) {
        var i, j := WalkGoesForward(V, E, order, p);
      }
    }
  }

  lemma BackEdgeClosesCycle(E: Edges, p: seq<Id>, u: Id, i: nat)
    requires IsWalk(E, p) && (u, p[0]) in E && i < |p| && p[i] == u
    ensures IsCycle(E, ([u] + p)[..i + 2])
  {
    var cycle := ([u] + p)[..i + 2];
    forall k | 0 <= k < |cycle| - 1 ensures (cycle[k], cycle[k + 1]) in E {
      if k > 0 {
        assert cycle[k] == p[k - 1] && cycle[k + 1] == p[k - 1 + 1];
      }
    }
  }

  lemma WalkFurtherBack(E: Edges, S: set<Id>, p: seq<Id>, u: Id)
    requires IsWalk(E, p) && (u, p[0]) in E && Distinct(p) && Elements(p) <= S && u in S && u !in p
    ensures IsWalk(E, [u] + p) && Distinct([u] + p) && Elements([u] + p) <= S
    ensures |S - Elements([u] + p)| < |S - Elements(p)|
  {
    var q := [u] + p;
    assert forall k | 0 < k < |q| :: q[k] == p[k - 1];
    assert Elements(q) == Elements(p) + {u};
    assert S - Elements(q) == (S - Elements(p)) - {u};
    assert u in S - Elements(p);
  }

  /** Walking backwards inside `S` either meets a node without predecessors in `S` or closes a cycle. */
  lemma {:induction false} WalkBackToSource(E: Edges, S: set<Id>, p: seq<Id>) returns (v: Id)
    requires Acyclic(E)
    requires |p| > 0 && IsWalk(E, p) && Distinct(p) && Elements(p) <= S
    ensures v in S && forall u | u in S :: (u, v) !in E
    decreases |S - Elements(p)|
  {
    v := p[0];
    assert v in Elements(p);
    hide IsWalk, IsCycle, Distinct, Elements;
    if u :| u in S && (u, v) in E {
      if i :| 0 <= i < |p| && p[i] == u {
        BackEdgeClosesCycle(E, p, u, i);
      } else {
        WalkFurtherBack(E, S, p, u);
        v := WalkBackToSource(E, S, [u] + p);
      }
    }
  }

  lemma SourceExists(E: Edges, S: set<Id>)
    requires Acyclic(E) && S != {}
    ensures exists v :: v in S && forall u | u in S :: (u, v) !in E
  {
    var s :| s in S;
    var v := WalkBackToSource(E, S, [s]);
  }

  lemma ReadyExists(V: set<Id>, E: Edges, done: set<Id>)
    requires Acyclic(E) && Within(E, V) && V - done != {}
    ensures Ready(V, E, done) != {}
  {
    SourceExists(E, V - done);
    var v :| v in V - done && forall u | u in V - done :: (u, v) !in E;
    assert v in Ready(V, E, done);
  }

  /** Every entry is the least node that was ready when it was listed. */
  ghost predicate IsGreedy(V: set<Id>, E: Edges, order: seq<Id>) {
    forall i | 0 <= i < |order| :: IsLeast(Ready(V, E, Elements(order[..i])), order[i])
  }

  /** Lexicographic comparison of two listings: at the first difference `s` has the smaller id. */
  ghost predicate Precedes(s: seq<Id>, t: seq<Id>) {
    s == t || exists i :: 0 <= i < |s| && i < |t| && s[..i] == t[..i] && Less(s[i], t[i])
  }

  ghost predicate IsLeastTopologicalOrder(V: set<Id>, E: Edges, order: seq<Id>) {
    && IsTopologicalOrder(V, E, order)
    && forall other | IsTopologicalOrder(V, E, other) :: Precedes(order, other)
  }

  lemma {:induction false} DistinctCardinality<T>(xs: seq<T>)
    requires Distinct(xs)
    ensures |Elements(xs)| == |xs|
  {
    if |xs| > 0 {
      var n := |xs| - 1;
      DistinctCardinality(xs[..n]);
      assert xs == xs[..n] + [xs[n]];
      assert Elements(xs) == Elements(xs[..n]) + {xs[n]};
    }
  }

  lemma PendingAfter(E: Edges, done: set<Id>, node: Id, v: Id)
    ensures Pending(E, done + {node}, v) == Pending(E, done, v) - {node}
    ensures (node, v) !in E ==> Pending(E, done + {node}, v) == Pending(E, done, v)
    ensures (node, v) in E && node !in done ==> node in Pending(E, done, v)
  {
    if (node, v) in E && node !in done {
      assert (node, v).0 in Pending(E, done, v);
    }
  }

  lemma GreedyIsTopological(V: set<Id>, E: Edges, order: seq<Id>)
    requires IsGreedy(V, E, order) && V == Elements(order)
    ensures IsTopologicalOrder(V, E, order)
  {
    forall i, j | 0 <= i < j < |order| ensures order[i] != order[j] {
      assert IsLeast(Ready(V, E, Elements(order[..j])), order[j]);
      assert order[..j][i] == order[i];
    }
    forall i, j | 0 <= i < |order| && 0 <= j < |order| && (order[i], order[j]) in E
      ensures i < j
    {
      assert IsLeast(Ready(V, E, Elements(order[..j])), order[j]);
      if order[i] !in Elements(order[..j]) {
        PendingAfter(E, Elements(order[..j]), order[i], order[j]);
      }
      var k :| 0 <= k < j && order[..j][k] == order[i];
      assert k == i;
    }
  }

  /** Two listings of the same nodes agree or differ first at some position. */
  lemma FirstDifference(s: seq<Id>, t: seq<Id>, n: nat) returns (i: nat)
    requires |s| == |t| && n <= |s| && s[..n] == t[..n] && s != t
    ensures i < |s| && s[..i] == t[..i] && s[i] != t[i]
    decreases |s| - n
  {
    assert s[..|s|] == s && t[..|t|] == t;
    if s[n] != t[n] {
      i := n;
    } else {
      assert s[..n + 1] == s[..n] + [s[n]] && t[..n + 1] == t[..n] + [t[n]];
      i := FirstDifference(s, t, n + 1);
    }
  }

  lemma NextIsReady(V: set<Id>, E: Edges, order: seq<Id>, i: nat)
    requires IsTopologicalOrder(V, E, order) && Within(E, V) && i < |order|
    ensures order[i] in Ready(V, E, Elements(order[..i]))
  {
    var done := Elements(order[..i]);
    assert order[i] !in done;
    forall e | e in E && e.1 == order[i] ensures e.0 in done {
      var k :| 0 <= k < |order| && order[k] == e.0;
      assert e == (order[k], order[i]);
      assert order[..i][k] == order[k];
    }
  }

  /** The order in which the least ready node always goes first is the least of all topological orders. */
  lemma GreedyIsLeast(V: set<Id>, E: Edges, order: seq<Id>)
    requires IsGreedy(V, E, order) && V == Elements(order) && Within(E, V)
    ensures IsLeastTopologicalOrder(V, E, order)
  {
    GreedyIsTopological(V, E, order);
    forall other | IsTopologicalOrder(V, E, other) ensures Precedes(order, other) {
      if other != order {
        DistinctCardinality(order);
        DistinctCardinality(other);
        assert Elements(other) == V;
        var i := FirstDifference(order, other, 0);
        NextIsReady(V, E, other, i);
        assert IsLeast(Ready(V, E, Elements(order[..i])), order[i]);
      }
    }
  }

  lemma PrefixAgrees(s: seq<Id>, t: seq<Id>, n: nat, i: nat)
    requires i < n <= |s| && n <= |t| && s[..n] == t[..n]
    ensures s[i] == t[i]
  {
    assert s[..n][i] == t[..n][i];
  }

  lemma PrecedesIsAntisymmetric(s: seq<Id>, t: seq<Id>)
    requires Precedes(s, t) && Precedes(t, s)
    ensures s == t
  {
    if s != t {
      var i :| 0 <= i < |s| && i < |t| && s[..i] == t[..i] && Less(s[i], t[i]);
      var j :| 0 <= j < |t| && j < |s| && t[..j] == s[..j] && Less(t[j], s[j]);
      LessIsAsymmetric(s[i], t[i]);
      LessIsAsymmetric(t[j], s[j]);
      if i < j {
        PrefixAgrees(s, t, j, i);
      } else if j < i {
        PrefixAgrees(s, t, i, j);
      }
    }
  }

  lemma LeastOrderIsUnique(V: set<Id>, E: Edges, s: seq<Id>, t: seq<Id>)
    requires IsLeastTopologicalOrder(V, E, s) && IsLeastTopologicalOrder(V, E, t)
    ensures s == t
  {
    PrecedesIsAntisymmetric(s, t);
  }

  lemma {:induction false} GreedyCompletes(V: set<Id>, E: Edges, order: seq<Id>) returns (full: seq<Id>)
    requires Acyclic(E) && Within(E, V) && IsGreedy(V, E, order) && Elements(order) <= V
    ensures IsGreedy(V, E, full) && Elements(full) == V
    decreases V - Elements(order)
  {
    if V - Elements(order) == {} {
      full := order;
    } else {
      var ready := Ready(V, E, Elements(order));
      ReadyExists(V, E, Elements(order));
      LeastExists(ready);
      var v :| IsLeast(ready, v);
      var longer := order + [v];
      assert forall i | 0 <= i < |order| :: longer[..i] == order[..i];
      assert longer[..|order|] == order;
      assert Elements(longer) == Elements(order) + {v};
      full := GreedyCompletes(V, E, longer);
    }
  }

  /** What the depth-first check rules out is exactly what would keep Kahn's algorithm from finishing. */
  lemma AcyclicIffOrderable(V: set<Id>, E: Edges)
    requires Within(E, V)
    ensures Acyclic(E) <==> exists order :: IsTopologicalOrder(V, E, order)
  {
    if Acyclic(E) {
      var order := GreedyCompletes(V, E, []);
      GreedyIsTopological(V, E, order);
    }
    if order :| IsTopologicalOrder(V, E, order) {
      OrderedIsAcyclic(V, E, order);
    }
  }
}
