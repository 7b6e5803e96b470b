/** Reachability that stays outside a set, and closure under successors. */
module Reachability {
  import opened Ids
  import opened Digraphs

  ghost predicate IsWalkAvoiding(E: Edges, S: set<Id>, p: seq<Id>, a: Id, b: Id) {
    IsWalkFromTo(E, p, a, b) && forall i | 1 <= i < |p| :: p[i] !in S
  }

  /** `b` is reached from `a` over one or more edges without entering `S`. */
  ghost predicate ReachesAvoiding(E: Edges, S: set<Id>, a: Id, b: Id) {
    exists p :: IsWalkAvoiding(E, S, p, a, b)
  }

  ghost predicate ClosedUnder(E: Edges, S: set<Id>) {
    forall a, b | (a, b) in E && a in S :: b in S
  }

  lemma EdgeReachesAvoiding(E: Edges, S: set<Id>, a: Id, b: Id)
    requires (a, b) in E && b !in S
    ensures ReachesAvoiding(E, S, a, b)
  {
    assert IsWalkAvoiding(E, S, [a, b], a, b);
  }

  lemma AvoidingThenEdge(E: Edges, S: set<Id>, a: Id, b: Id, c: Id)
    requires ReachesAvoiding(E, S, a, b) && (b, c) in E && c !in S
    ensures ReachesAvoiding(E, S, a, c)
  {
    var p :| IsWalkAvoiding(E, S, p, a, b);
    assert IsWalkAvoiding(E, S, p + [c], a, c);
  }

  /** A walk that starts in a closed set never leaves it. */
  lemma {:induction false} ClosedKeepsWalk(E: Edges, S: set<Id>, p: seq<Id>, i: nat, j: nat)
    requires ClosedUnder(E, S) && IsWalk(E, p) && i <= j < |p| && p[i] in S
    ensures p[j] in S
  {
    if i < j {
      ClosedKeepsWalk(E, S, p, i, j - 1);
      assert (p[j - 1], p[j - 1 + 1]) in E;
    }
  }

  /** Not entering a closed set again hides nothing: what it would lead to is in the set already. */
  lemma AvoidingClosedSet(E: Edges, S: set<Id>, a: Id, b: Id)
    requires ClosedUnder(E, S)
    ensures b in S || ReachesAvoiding(E, S, a, b) <==> b in S || Reaches(E, a, b)
  {
    if p :| IsWalkAvoiding(E, S, p, a, b) {
      assert IsWalkFromTo(E, p, a, b);
    }
    if b !in S && Reaches(E, a, b) {
      var p :| IsWalkFromTo(E, p, a, b);
      forall i | 1 <= i < |p| ensures p[i] !in S {
        if p[i] in S {
          ClosedKeepsWalk(E, S, p, i, |p| - 1);
        }
      }
      assert IsWalkAvoiding(E, S, p, a, b);
    }
  }

  /** Adding everything reached from `a` keeps a closed set closed. */
  lemma ReachKeepsClosed(E: Edges, S: set<Id>, T: set<Id>, a: Id)
    requires ClosedUnder(E, S)
    requires forall v :: v in T <==> v in S || Reaches(E, a, v)
    ensures ClosedUnder(E, T)
  {
    forall u, v | (u, v) in E && u in T ensures v in T {
      if u !in S {
        ReachesThenEdge(E, a, u, v);
      }
    }
  }

  /** Steps along a walk that avoids `S` stay in a set that is closed except towards `S`. */
  lemma {:induction false} AvoidingStaysIn(E: Edges, S: set<Id>, T: set<Id>, p: seq<Id>, j: nat)
    requires IsWalk(E, p) && 1 <= j < |p| && forall i | 1 <= i < |p| :: p[i] !in S
    requires forall v | (p[0], v) in E :: v in T
    requires forall u, v | (u, v) in E && u in T && u !in S :: v in T
    ensures p[j] in T
  {
    if j == 1 {
      assert (p[0], p[0 + 1]) in E;
    } else {
      AvoidingStaysIn(E, S, T, p, j - 1);
      assert (p[j - 1], p[j - 1 + 1]) in E;
    }
  }
}
