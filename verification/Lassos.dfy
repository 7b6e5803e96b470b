/** Which cycle a depth-first search in ascending order comes upon first, told by the graph alone. */
module Lassos {
  import opened Ids
  import opened Digraphs

  /** A walk that comes back to one of its nodes at its end, and not before. */
  ghost predicate IsLasso(E: Edges, p: seq<Id>) {
    && |p| >= 2 && IsWalk(E, p)
    && (forall i, j | 0 <= i < j < |p| - 1 :: p[i] != p[j])
    && exists i :: 0 <= i < |p| - 1 && p[i] == p[|p| - 1]
  }

  ghost predicate IsLoopOf(p: seq<Id>, cycle: seq<Id>) {
    exists i :: 0 <= i < |p| - 1 && p[i] == p[|p| - 1] && cycle == p[i..]
  }

  ghost predicate IsLeastLasso(E: Edges, p: seq<Id>) {
    IsLasso(E, p) && forall q | IsLasso(E, q) :: Precedes(p, q)
  }

  /** The loop of the lexicographically least lasso of the graph. */
  ghost predicate IsFirstCycle(E: Edges, cycle: seq<Id>) {
    exists p :: IsLeastLasso(E, p) && IsLoopOf(p, cycle)
  }

  lemma LoopWalks(E: Edges, p: seq<Id>, i: nat)
    requires IsWalk(E, p) && i < |p| - 1 && p[i] == p[|p| - 1]
    ensures IsCycle(E, p[i..])
  {
    var cycle := p[i..];
    forall j | 0 <= j < |cycle| - 1 ensures (cycle[j], cycle[j + 1]) in E {
      assert (p[i + j], p[i + j + 1]) in E;
    }
  }

  lemma LoopIsSimple(p: seq<Id>, i: nat)
    requires i < |p| - 1 && p[i] == p[|p| - 1] && forall j, k | 0 <= j < k < |p| - 1 :: p[j] != p[k]
    ensures Distinct(p[i..][1..])
  {
    assert p[i..][1..] == p[i + 1..];
  }

  lemma LoopIsCycle(E: Edges, p: seq<Id>, cycle: seq<Id>)
    requires IsLasso(E, p) && IsLoopOf(p, cycle)
    ensures IsCycle(E, cycle) && Distinct(cycle[1..])
  {
    hide IsCycle, Distinct;
    var i :| 0 <= i < |p| - 1 && p[i] == p[|p| - 1] && cycle == p[i..];
    LoopWalks(E, p, i);
    LoopIsSimple(p, i);
  }

  lemma FirstCycleIsCycle(E: Edges, cycle: seq<Id>)
    requires IsFirstCycle(E, cycle)
    ensures IsCycle(E, cycle) && Distinct(cycle[1..])
  {
    var p :| IsLeastLasso(E, p) && IsLoopOf(p, cycle);
    LoopIsCycle(E, p, cycle);
  }

  lemma PrefixDiffers(s: seq<Id>, t: seq<Id>, n: nat) returns (i: nat)
    requires n <= |s| && n <= |t| && s[..n] != t[..n]
    ensures i < n && s[..i] == t[..i] && s[i] != t[i]
  {
    i := FirstDifference(s[..n], t[..n], 0);
    assert s[..n][..i] == s[..i] && t[..n][..i] == t[..i];
  }

  /** A lasso does not go on as another one. */
  lemma LassoIsNoPrefix(E: Edges, p: seq<Id>, q: seq<Id>)
    requires IsLasso(E, p) && IsLasso(E, q) && |p| < |q|
    ensures q[..|p|] != p
  {
    var i :| 0 <= i < |p| - 1 && p[i] == p[|p| - 1];
    assert q[..|p|][i] == q[i] && q[..|p|][|p| - 1] == q[|p| - 1];
    assert q[i] != q[|p| - 1];
  }

  lemma LassosDiffer(E: Edges, p: seq<Id>, q: seq<Id>) returns (i: nat)
    requires IsLasso(E, p) && IsLasso(E, q) && p != q
    ensures i < |p| && i < |q| && p[..i] == q[..i] && p[i] != q[i]
  {
    var n := if |p| <= |q| then |p| else |q|;
    assert p[..|p|] == p && q[..|q|] == q;
    if |p| < |q| {
      LassoIsNoPrefix(E, p, q);
    } else if |q| < |p| {
      LassoIsNoPrefix(E, q, p);
    }
    i := PrefixDiffers(p, q, n);
  }

  /** Where all that could be chosen earlier lies on no lasso, the lasso is the least. */
  lemma LassoIsLeast(V: set<Id>, E: Edges, p: seq<Id>, dead: set<Id>)
    requires IsLasso(E, p) && Within(E, V)
    requires forall q, i | IsLasso(E, q) && 0 <= i < |q| :: q[i] !in dead
    requires forall v | v in V && Less(v, p[0]) :: v in dead
    requires forall i, w | 1 <= i < |p| && (p[i - 1], w) in E && Less(w, p[i]) :: w in dead
    ensures IsLeastLasso(E, p)
  {
    hide Less;
    forall q | IsLasso(E, q) ensures Precedes(p, q) {
      if p != q {
        var i := LassosDiffer(E, p, q);
        LessIsTotal(p[i], q[i]);
        assert q[i] !in dead;
        if i == 0 {
          assert (q[0], q[1]) in E;
        } else {
          assert q[i - 1] == q[..i][i - 1] == p[..i][i - 1] == p[i - 1];
          assert (q[i - 1], q[i]) in E;
        }
      }
    }
  }

  /** From a node of such a listing every walk goes down the listing. */
  lemma {:induction false} WalkGoesDown(E: Edges, finished: seq<Id>, q: seq<Id>, i: nat, j: nat, a: nat) returns (b: nat)
    requires forall k, w | 0 <= k < |finished| && (finished[k], w) in E :: w in finished[k + 1..]
    requires IsWalk(E, q) && i <= j < |q| && a < |finished| && finished[a] == q[i]
    ensures b < |finished| && finished[b] == q[j] && b >= a && (i < j ==> b > a)
    decreases j - i
  {
    b := a;
    if i < j {
      assert (q[i], q[i + 1]) in E;
      var k :| 0 <= k < |finished[a + 1..]| && finished[a + 1..][k] == q[i + 1];
      b := WalkGoesDown(E, finished, q, i + 1, j, a + 1 + k);
    }
  }

  /** No lasso has a node from which every edge leads further down such a listing. */
  lemma NoLassoThrough(E: Edges, finished: seq<Id>, q: seq<Id>, i: nat)
    requires Distinct(finished)
    requires forall k, w | 0 <= k < |finished| && (finished[k], w) in E :: w in finished[k + 1..]
    requires IsLasso(E, q) && i < |q|
    ensures q[i] !in finished
  {
    if q[i] in finished {
      var a :| 0 <= a < |finished| && finished[a] == q[i];
      var n := |q| - 1;
      var j :| 0 <= j < n && q[j] == q[n];
      var b := WalkGoesDown(E, finished, q, i, n, a);
      var c := WalkGoesDown(E, finished, q, j, n, b);
    }
  }

  lemma LoopIsUnique(E: Edges, p: seq<Id>, c: seq<Id>, d: seq<Id>)
    requires IsLasso(E, p) && IsLoopOf(p, c) && IsLoopOf(p, d)
    ensures c == d
  {
    var i :| 0 <= i < |p| - 1 && p[i] == p[|p| - 1] && c == p[i..];
    var j :| 0 <= j < |p| - 1 && p[j] == p[|p| - 1] && d == p[j..];
  }

  /** There is only one, so the cycle reported is determined by the graph. */
  lemma FirstCycleIsUnique(E: Edges, c: seq<Id>, d: seq<Id>)
    requires IsFirstCycle(E, c) && IsFirstCycle(E, d)
    ensures c == d
  {
    hide IsLasso, IsLoopOf, Precedes;
    var p :| IsLeastLasso(E, p) && IsLoopOf(p, c);
    var q :| IsLeastLasso(E, q) && IsLoopOf(q, d);
    assert Precedes(p, q) && Precedes(q, p);
    PrecedesIsAntisymmetric(p, q);
    LoopIsUnique(E, p, c, d);
  }
}
