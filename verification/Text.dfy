/** Searching and splicing strings, as sequences of characters. */
module Text {
  import opened Wrappers

  predicate OccursAt(s: string, p: string, i: nat) {
    i + |p| <= |s| && s[i..i + |p|] == p
  }

  ghost predicate Occurs(s: string, p: string) {
    exists i: nat :: OccursAt(s, p, i)
  }

  /** `s[from..].find(p)`, as an offset into `s`. */
  function Find(s: string, p: string, from: nat): (r: Option<nat>)
    requires from <= |s|
    ensures r.Some? ==> from <= r.value && r.value + |p| <= |s|
    decreases |s| - from
  {
    if OccursAt(s, p, from) then Some(from)
    else if from == |s| then None
    else Find(s, p, from + 1)
  }

  /** The offset found is the first at which the text occurs. */
  lemma {:induction false} FindIsFirst(s: string, p: string, from: nat)
    requires from <= |s|
    ensures Find(s, p, from).Some? ==>
              OccursAt(s, p, Find(s, p, from).value)
              && forall j: nat | from <= j < Find(s, p, from).value :: !OccursAt(s, p, j)
    ensures Find(s, p, from).None? ==> forall j: nat | from <= j :: !OccursAt(s, p, j)
    decreases |s| - from
  {
    if !OccursAt(s, p, from) && from < |s| {
      FindIsFirst(s, p, from + 1);
    }
  }

  predicate Contains(s: string, p: string) {
    Find(s, p, 0).Some?
  }

  function LowerAscii(c: char): char {
    if 'A' <= c <= 'Z' then ((c as int) + 32) as char else c
  }

  function Lower(s: string): string {
    seq(|s|, i requires 0 <= i < |s| => LowerAscii(s[i]))
  }

  /** The same letter, or one the capital of the other. */
  predicate SameLetter(c: char, d: char) {
    || c == d
    || ('A' <= c <= 'Z' && d as int == c as int + 32)
    || ('A' <= d <= 'Z' && c as int == d as int + 32)
  }

  lemma LowerAsciiMeaning(c: char, d: char)
    ensures LowerAscii(c) == LowerAscii(d) <==> SameLetter(c, d)
    ensures SameLetter(c, LowerAscii(c)) && !('A' <= LowerAscii(c) <= 'Z')
  {
  }

  function Shift(r: Option<nat>, n: nat): Option<nat> {
    match r case None => None case Some(i) => Some(i + n)
  }

  /** Searching from an offset is searching the rest of the text. */
  lemma {:induction false} FindInRest(s: string, p: string, from: nat, i: nat)
    requires from <= i <= |s|
    ensures Find(s, p, i) == Shift(Find(s[from..], p, i - from), from)
    decreases |s| - i
  {
    hide OccursAt;
    Halves(s, from);
    OccursInRight(s[..from], s[from..], p, i);
    if !OccursAt(s, p, i) && i < |s| {
      FindInRest(s, p, from, i + 1);
    }
  }

  /** `p` laid over `r`, shifted by `d`, disagrees with it somewhere. */
  ghost predicate Mismatch(p: string, r: string, d: int) {
    exists j :: 0 <= j < |p| && 0 <= j + d < |r| && p[j] != r[j + d]
  }

  /** No occurrence of `p` can share a character with an inserted `r`. */
  ghost predicate Blocks(p: string, r: string) {
    forall d: int | -|p| < d < |r| :: Mismatch(p, r, d)
  }

  lemma Reassociate(a: string, b: string, r: string, c: string)
    ensures (a + b + r) + c == a + ((b + r) + c)
    ensures (a + b) + c == a + (b + c)
  {
  }

  lemma Halves(s: string, i: nat)
    requires i <= |s|
    ensures s == s[..i] + s[i..]
  {
  }

  lemma SplitAfter(a: string, s: string, i: nat, end: nat)
    requires i <= end <= |s|
    ensures a + s == (a + s[..end]) + s[end..]
    ensures a + s == (a + s[..i]) + s[i..end] + s[end..]
  {
  }

  lemma OccursInLeft(a: string, b: string, p: string, i: nat)
    requires i + |p| <= |a|
    ensures OccursAt(a + b, p, i) <==> OccursAt(a, p, i)
  {
    assert (a + b)[i..i + |p|] == a[i..i + |p|];
  }

  lemma OccursInRight(a: string, b: string, p: string, i: nat)
    requires i >= |a|
    ensures OccursAt(a + b, p, i) <==> OccursAt(b, p, i - |a|)
  {
    if i + |p| <= |a + b| {
      assert (a + b)[i..i + |p|] == b[i - |a|..i - |a| + |p|];
    }
  }

  /** An occurrence cannot overlap an inserted text that blocks it. */
  lemma OverlapFails(a: string, r: string, b: string, p: string, i: nat)
    requires Blocks(p, r) && i + |p| > |a| && i < |a| + |r|
    ensures !OccursAt(a + r + b, p, i)
  {
    var s, d := a + r + b, i - |a|;
    assert Mismatch(p, r, d);
    var j :| 0 <= j < |p| && 0 <= j + d < |r| && p[j] != r[j + d];
    if i + |p| <= |s| {
      assert s[i..i + |p|][j] == s[i + j] == r[j + d];
    }
  }

  /** What stands on neither side of a blocking text is not there after the splice. */
  lemma AbsentInSplice(a: string, r: string, b: string, p: string)
    requires Blocks(p, r) && !Occurs(a, p) && !Occurs(b, p) && |r| > 0
    ensures !Occurs(a + r + b, p)
  {
    forall i: nat ensures !OccursAt(a + r + b, p, i) {
      if i + |p| <= |a| {
        assert a + r + b == a + (r + b);
        OccursInLeft(a, r + b, p, i);
      } else if i >= |a| + |r| {
        OccursInRight(a + r, b, p, i);
      } else {
        OverlapFails(a, r, b, p, i);
      }
    }
  }

  lemma AbsentInParts(a: string, b: string, p: string)
    requires !Occurs(a + b, p)
    ensures !Occurs(a, p) && !Occurs(b, p)
  {
    forall i: nat ensures !OccursAt(a, p, i) && !OccursAt(b, p, i) {
      if i + |p| <= |a| {
        OccursInLeft(a, b, p, i);
      }
      OccursInRight(a, b, p, i + |a|);
    }
  }

  lemma FoundSplits(s: string, p: string, i: nat)
    requires Find(s, p, 0) == Some(i)
    ensures OccursAt(s, p, i) && s == s[..i] + p + s[i + |p|..]
  {
    hide Find;
    FindIsFirst(s, p, 0);
    SplitAfter("", s, i, i + |p|);
  }

  /** What is found in a text is found there whatever follows the text. */
  lemma FindInLonger(b: string, rest: string, p: string, i: nat)
    requires Find(b, p, 0) == Some(i)
    ensures Find(b + rest, p, 0) == Some(i)
  {
    hide Find;
    FindIsFirst(b, p, 0);
    FindIsFirst(b + rest, p, 0);
    assert forall j: nat | j <= i :: OccursAt(b + rest, p, j) <==> OccursAt(b, p, j) by {
      forall j: nat | j <= i ensures OccursAt(b + rest, p, j) <==> OccursAt(b, p, j) {
        OccursInLeft(b, rest, p, j);
      }
    }
  }

  lemma StartsWith(s: string, p: string, j: nat)
    requires |p| > 0 && j < |s|
    ensures OccursAt(s, p, j) ==> s[j] == p[0]
  {
    assert OccursAt(s, p, j) ==> s[j..j + |p|][0] == s[j];
  }

  lemma OccursInMiddle(a: string, p: string, b: string)
    ensures OccursAt(a + p + b, p, |a|)
  {
    assert (a + p + b)[|a|..|a| + |p|] == p;
  }

  lemma FoundAt(s: string, p: string, i: nat)
    requires OccursAt(s, p, i) && forall j: nat | j < i :: !OccursAt(s, p, j)
    ensures Find(s, p, 0) == Some(i)
  {
    hide OccursAt, Find;
    FindIsFirst(s, p, 0);
  }

  lemma FindNone(s: string, p: string)
    requires Find(s, p, 0) == None
    ensures !Occurs(s, p)
  {
    FindIsFirst(s, p, 0);
  }

  lemma AbsentBeforeFirst(s: string, p: string, i: nat)
    requires |p| > 0 && Find(s, p, 0) == Some(i)
    ensures !Occurs(s[..i], p)
  {
    FindIsFirst(s, p, 0);
    forall q: nat ensures !OccursAt(s[..i], p, q) {
      if q + |p| <= i {
        assert s == s[..i] + s[i..];
        OccursInLeft(s[..i], s[i..], p, q);
      }
    }
  }

  /** Replacing a stretch by a blocking text creates no occurrence. */
  lemma SpliceKeepsAbsent(a: string, cut: string, b: string, r: string, p: string)
    requires !Occurs(a + cut + b, p) && Blocks(p, r) && |r| > 0
    ensures !Occurs(a + r + b, p)
  {
    AbsentInParts(a + cut, b, p);
    AbsentInParts(a, cut, p);
    AbsentInSplice(a, r, b, p);
  }

  /** `s.replace(p, r)`: left to right, without overlaps. */
  function ReplaceAll(s: string, p: string, r: string): string
    requires |p| > 0
    decreases |s|
  {
    match Find(s, p, 0)
    case None => s
    case Some(i) => s[..i] + r + ReplaceAll(s[i + |p|..], p, r)
  }

  /** Where the replacement blocks the pattern, none is left. */
  lemma {:induction false} ReplaceAllRemoves(s: string, p: string, r: string)
    requires |p| > 0 && |r| > 0 && Blocks(p, r)
    ensures !Occurs(ReplaceAll(s, p, r), p)
    decreases |s|
  {
    hide Blocks, Occurs, OccursAt;
    var found := Find(s, p, 0);
    if found.Some? {
      var i := found.value;
      ReplaceAllRemoves(s[i + |p|..], p, r);
      AbsentBeforeFirst(s, p, i);
      AbsentInSplice(s[..i], r, ReplaceAll(s[i + |p|..], p, r), p);
    } else {
      FindNone(s, p);
    }
  }

  /** Replacing creates no occurrence of another text that the replacement blocks, whatever stands before. */
  lemma {:induction false} ReplaceAllKeepsAbsent(a: string, s: string, p: string, r: string, q: string)
    requires |p| > 0 && |r| > 0 && Blocks(q, r) && !Occurs(a + s, q)
    ensures !Occurs(a + ReplaceAll(s, p, r), q)
    decreases |s|
  {
    hide Blocks, Occurs, OccursAt;
    var found := Find(s, p, 0);
    if found.Some? {
      var i := found.value;
      var left, right := a + s[..i], s[i + |p|..];
      FoundSplits(s, p, i);
      assert a + s == left + p + right;
      SpliceKeepsAbsent(left, p, right, r, q);
      ReplaceAllKeepsAbsent(left + r, right, p, r, q);
      Reassociate(a, s[..i], r, ReplaceAll(right, p, r));
    }
  }

  lemma ReplaceAbsent(s: string, p: string, r: string)
    requires |p| > 0 && !Occurs(s, p)
    ensures ReplaceAll(s, p, r) == s
  {
    FindIsFirst(s, p, 0);
  }
}
