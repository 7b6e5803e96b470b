/** Editing a text by replacing some stretches of it, all other text staying in place. */
module Cuts {
  import opened Text

  /** A stretch of text that stays, and the stretch after it that gives way. */
  datatype Cut = Cut(kept: string, removed: string)

  ghost function Original(cuts: seq<Cut>, tail: string): string {
    if |cuts| == 0 then tail else cuts[0].kept + cuts[0].removed + Original(cuts[1..], tail)
  }

  ghost function Edited(cuts: seq<Cut>, tail: string, put: string): string {
    if |cuts| == 0 then tail else cuts[0].kept + put + Edited(cuts[1..], tail, put)
  }

  lemma FirstCut(c: Cut, cuts: seq<Cut>, tail: string, put: string)
    ensures Original([c] + cuts, tail) == c.kept + c.removed + Original(cuts, tail)
    ensures Edited([c] + cuts, tail, put) == c.kept + put + Edited(cuts, tail, put)
  {
    assert ([c] + cuts)[1..] == cuts;
  }

  /** More text in front of the first cut, or of the tail if there is none. */
  lemma KeepInFront(a: string, cuts: seq<Cut>, tail: string, put: string) returns (more: seq<Cut>, end: string)
    ensures |more| == |cuts| && Original(more, end) == a + Original(cuts, tail)
    ensures Edited(more, end, put) == a + Edited(cuts, tail, put)
    ensures |cuts| > 0 ==> more[0].removed == cuts[0].removed && more[1..] == cuts[1..] && end == tail
    ensures forall k | 0 <= k < |cuts| :: more[k].removed == cuts[k].removed
  {
    if |cuts| == 0 {
      more, end := [], a + tail;
    } else {
      var c := cuts[0];
      more, end := [Cut(a + c.kept, c.removed)] + cuts[1..], tail;
      assert more[1..] == cuts[1..];
      Reassociate(a, c.kept, c.removed, Original(cuts[1..], tail));
      Reassociate(a, c.kept, put, Edited(cuts[1..], tail, put));
    }
  }

  /** All that is removed is `p`, and `p` stands nowhere in what is kept. */
  ghost predicate CutsAll(cuts: seq<Cut>, tail: string, p: string) {
    !Occurs(tail, p) && forall c | c in cuts :: c.removed == p && !Occurs(c.kept, p)
  }

  /** Replacing a text everywhere replaces its occurrences and keeps all other text in place. */
  lemma {:induction false} ReplaceAllMeaning(s: string, p: string, put: string) returns (cuts: seq<Cut>, tail: string)
    requires |p| > 0
    ensures s == Original(cuts, tail) && ReplaceAll(s, p, put) == Edited(cuts, tail, put) && CutsAll(cuts, tail, p)
    decreases |s|
  {
    hide Occurs, OccursAt;
    match Find(s, p, 0)
    case None =>
      FindNone(s, p);
      cuts, tail := [], s;
    case Some(i) =>
      FoundSplits(s, p, i);
      AbsentBeforeFirst(s, p, i);
      cuts, tail := ReplaceAllMeaning(s[i + |p|..], p, put);
      FirstCut(Cut(s[..i], p), cuts, tail, put);
      cuts := [Cut(s[..i], p)] + cuts;
  }
}
