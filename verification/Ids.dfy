/** Step and node ids, with the order in which the source's ordered sets and maps keep them. */
module Ids {
  type Id = string

  /** The strict order of `String`: the first differing character decides, a proper prefix comes first. */
  predicate Less(a: Id, b: Id) {
    |b| > 0 && (|a| == 0 || a[0] < b[0] || (a[0] == b[0] && Less(a[1..], b[1..])))
  }

  /** `a` is less: it is a proper prefix of `b`, or has the smaller character where they first differ. */
  lemma {:induction false} LessMeaning(a: Id, b: Id)
    ensures Less(a, b) <==>
            exists n :: 0 <= n <= |a| && n < |b| && a[..n] == b[..n] && (n == |a| || a[n] < b[n])
  {
    if |a| > 0 && |b| > 0 && a[0] == b[0] {
      LessMeaning(a[1..], b[1..]);
      if n :| 0 <= n <= |a| - 1 && n < |b| - 1 && a[1..][..n] == b[1..][..n] && (n == |a| - 1 || a[1..][n] < b[1..][n]) {
        assert a[..n + 1] == [a[0]] + a[1..][..n] && b[..n + 1] == [b[0]] + b[1..][..n];
      }
      if n :| 0 <= n <= |a| && n < |b| && a[..n] == b[..n] && (n == |a| || a[n] < b[n]) {
        assert n > 0;
        assert a[1..][..n - 1] == a[..n][1..] && b[1..][..n - 1] == b[..n][1..];
      }
    } else if |b| > 0 {
      assert a[..0] == b[..0];
      if n :| 0 <= n <= |a| && n < |b| && a[..n] == b[..n] && (n == |a| || a[n] < b[n]) {
        if n > 0 {
          assert a[..n][0] == b[..n][0];
        }
      }
    }
  }

  lemma {:induction false} LessIsAsymmetric(a: Id, b: Id)
    requires Less(a, b)
    ensures !Less(b, a) && a != b
  {
    if |a| > 0 && a[0] == b[0] {
      LessIsAsymmetric(a[1..], b[1..]);
    }
  }

  lemma {:induction false} LessIsTransitive(a: Id, b: Id, c: Id)
    requires Less(a, b) && Less(b, c)
    ensures Less(a, c)
  {
    if |a| > 0 && a[0] == b[0] == c[0] {
      LessIsTransitive(a[1..], b[1..], c[1..]);
    }
  }

  lemma {:induction false} LessIsTotal(a: Id, b: Id)
    ensures a == b || Less(a, b) || Less(b, a)
  {
    if |a| > 0 && |b| > 0 && a[0] == b[0] {
      LessIsTotal(a[1..], b[1..]);
      assert a == [a[0]] + a[1..] && b == [b[0]] + b[1..];
    }
  }

  ghost predicate IsLeast(s: set<Id>, m: Id) {
    m in s && forall x | x in s :: x == m || Less(m, x)
  }

  lemma {:induction false} LeastExists(s: set<Id>)
    requires s != {}
    ensures exists m :: IsLeast(s, m)
  {
    var x :| x in s;
    if s == {x} {
      assert IsLeast(s, x);
    } else {
      LeastExists(s - {x});
      var m :| IsLeast(s - {x}, m);
      LessIsTotal(x, m);
      if Less(x, m) {
        forall y | y in s ensures y == x || Less(x, y) {
          if y != x && y != m {
            LessIsTransitive(x, m, y);
          }
        }
        assert IsLeast(s, x);
      } else {
        assert IsLeast(s, m);
      }
    }
  }

  /** `BTreeSet::pop_first` on a non-empty set. */
  method PopFirst(s: set<Id>) returns (m: Id, rest: set<Id>)
    requires s != {}
    ensures IsLeast(s, m) && rest == s - {m}
  {
    LeastExists(s);
    assert exists m :: m in s && forall x | x in s :: x == m || Less(m, x) by {
      var w :| IsLeast(s, w);
    }
    m :| m in s && forall x | x in s :: x == m || Less(m, x);
    rest := s - {m};
  }

  /** Iteration order of a `BTreeSet`. */
  method InOrder(s: set<Id>) returns (xs: seq<Id>)
    ensures forall x :: x in xs <==> x in s
    ensures forall i, j | 0 <= i < j < |xs| :: Less(xs[i], xs[j])
  {
    xs := [];
    var left := s;
    while left != {}
      invariant left <= s
      invariant forall x :: x in xs <==> x in s - left
      invariant forall i, x | 0 <= i < |xs| && x in left :: Less(xs[i], x)
      invariant forall i, j | 0 <= i < j < |xs| :: Less(xs[i], xs[j])
    {
      var m, rest := PopFirst(left);
      xs, left := xs + [m], rest;
    }
  }

  ghost predicate Distinct<T>(xs: seq<T>) {
    forall i, j | 0 <= i < j < |xs| :: xs[i] != xs[j]
  }

  ghost function Elements<T>(xs: seq<T>): set<T> {
    set x | x in xs
  }

  function Insert(x: Id, xs: seq<Id>): (r: seq<Id>)
    ensures multiset(r) == multiset(xs) + multiset{x}
  {
    if |xs| == 0 || !Less(xs[0], x) then [x] + xs
    else
      assert xs == [xs[0]] + xs[1..];
      [xs[0]] + Insert(x, xs[1..])
  }

  /** `sort_unstable` on ids; equal ids are identical, so stability plays no part. */
  function Sort(xs: seq<Id>): (r: seq<Id>)
    ensures multiset(r) == multiset(xs)
  {
    if |xs| == 0 then []
    else
      assert xs == [xs[0]] + xs[1..];
      Insert(xs[0], Sort(xs[1..]))
  }

  ghost predicate NoneFalls(xs: seq<Id>) {
    forall i, j | 0 <= i < j < |xs| :: !Less(xs[j], xs[i])
  }

  ghost predicate Ascends(xs: seq<Id>) {
    forall i, j | 0 <= i < j < |xs| :: Less(xs[i], xs[j])
  }

  lemma {:induction false} InsertKeepsOrder(x: Id, xs: seq<Id>)
    requires NoneFalls(xs)
    ensures NoneFalls(Insert(x, xs))
  {
    hide Less;
    if |xs| > 0 && Less(xs[0], x) {
      InsertKeepsOrder(x, xs[1..]);
      var rest := Insert(x, xs[1..]);
      forall y | y in rest ensures !Less(y, xs[0]) {
        assert y in multiset(rest);
        LessIsAsymmetricIf(xs[0], x);
        if y != x {
          assert y in xs[1..];
        }
      }
    } else if |xs| > 0 {
      forall y | y in xs ensures !Less(y, x) {
        var i :| 0 <= i < |xs| && xs[i] == y;
        LessIsTotal(xs[0], y);
        LessIsTotal(x, xs[0]);
        if i > 0 && Less(y, x) {
          FallsBelow(y, x, xs[0]);
        }
      }
    }
  }

  lemma LessIsAsymmetricIf(a: Id, b: Id)
    ensures Less(a, b) ==> !Less(b, a)
  {
    hide Less;
    if Less(a, b) {
      LessIsAsymmetric(a, b);
    }
  }

  lemma FallsBelow(y: Id, x: Id, z: Id)
    requires Less(y, x) && !Less(z, x)
    ensures Less(y, z)
  {
    hide Less;
    LessIsTotal(z, x);
    if z != x {
      LessIsTransitive(y, x, z);
    }
  }

  /** Sorting ascends, strictly where nothing is listed twice. */
  lemma {:induction false} SortAscends(xs: seq<Id>)
    ensures NoneFalls(Sort(xs))
    ensures Distinct(xs) ==> Ascends(Sort(xs))
  {
    hide Less, Insert;
    if |xs| > 0 {
      SortAscends(xs[1..]);
      InsertKeepsOrder(xs[0], Sort(xs[1..]));
    }
    SortKeepsElements(xs);
    var ys := Sort(xs);
    forall i, j | Distinct(xs) && 0 <= i < j < |ys| ensures Less(ys[i], ys[j]) {
      LessIsTotal(ys[i], ys[j]);
    }
  }

  /** A list that ascends is determined by what it holds. */
  lemma {:induction false} AscendingIsUnique(xs: seq<Id>, ys: seq<Id>)
    requires Ascends(xs) && Ascends(ys) && forall x :: x in xs <==> x in ys
    ensures xs == ys
    decreases |xs|
  {
    hide Less;
    assert |ys| > 0 ==> ys[0] in ys;
    if |xs| > 0 {
      assert xs[0] in xs;
      LessIsAsymmetricIf(xs[0], ys[0]);
      assert xs[0] == ys[0];
      forall x ensures x in xs[1..] <==> x in ys[1..] {
        RestHolds(xs, x);
        RestHolds(ys, x);
      }
      AscendingIsUnique(xs[1..], ys[1..]);
      assert xs == [xs[0]] + xs[1..] && ys == [ys[0]] + ys[1..];
    }
  }

  lemma RestHolds(xs: seq<Id>, x: Id)
    requires |xs| > 0 && Ascends(xs)
    ensures x in xs[1..] <==> x in xs && x != xs[0]
  {
    hide Less;
    assert xs == [xs[0]] + xs[1..];
    LessIsAsymmetricIf(xs[0], xs[0]);
    if x in xs[1..] {
      var k :| 0 <= k < |xs| - 1 && xs[1..][k] == x;
      assert Less(xs[0], xs[k + 1]);
    }
  }

  /** `Vec::dedup`: drops each entry equal to the one kept before it. */
  function Dedup(xs: seq<Id>): seq<Id> {
    if |xs| < 2 then xs
    else if xs[0] == xs[1] then Dedup(xs[1..])
    else [xs[0]] + Dedup(xs[1..])
  }

  lemma {:induction false} DedupOfDistinct(xs: seq<Id>)
    requires Distinct(xs)
    ensures Dedup(xs) == xs
  {
    if |xs| >= 2 {
      assert xs[0] != xs[1];
      DedupOfDistinct(xs[1..]);
    }
  }

  lemma SortKeepsElements(xs: seq<Id>)
    ensures forall x :: x in Sort(xs) <==> x in xs
    ensures Distinct(xs) ==> Distinct(Sort(xs))
  {
    var ys := Sort(xs);
    forall x ensures x in ys <==> x in xs {
      assert x in ys <==> x in multiset(ys);
      assert x in xs <==> x in multiset(xs);
    }
    if Distinct(xs) {
      DistinctIsCounting(xs, ys);
    }
  }

  /** Being free of duplicates does not depend on the order. */
  lemma DistinctIsCounting<T>(xs: seq<T>, ys: seq<T>)
    requires multiset(xs) == multiset(ys) && Distinct(xs)
    ensures Distinct(ys)
  {
    DistinctCounts(xs);
    forall x | x in ys ensures multiset(ys)[x] <= 1 {
      assert x in multiset(xs);
    }
    CountsDistinct(ys);
  }

  lemma {:induction false} DistinctCounts<T>(xs: seq<T>)
    requires Distinct(xs)
    ensures forall x | x in xs :: multiset(xs)[x] <= 1
  {
    if |xs| > 0 {
      DistinctCounts(xs[1..]);
      assert xs == [xs[0]] + xs[1..];
      assert xs[0] !in multiset(xs[1..]);
    }
  }

  lemma CountsDistinct<T>(xs: seq<T>)
    requires forall x | x in xs :: multiset(xs)[x] <= 1
    ensures Distinct(xs)
  {
    forall i, j | 0 <= i < j < |xs| ensures xs[i] != xs[j] {
      var before := xs[..j];
      assert before[i] == xs[i];
      assert multiset(before)[xs[i]] >= 1;
      assert xs == before + [xs[j]] + xs[j+1..];
      assert multiset(xs)[xs[j]] == multiset(before)[xs[j]] + 1 + multiset(xs[j+1..])[xs[j]];
    }
  }
}
