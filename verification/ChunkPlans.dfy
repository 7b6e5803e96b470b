/** How a section that is too long for one chunk is taken apart: stretches of paragraphs, and line groups of long ones. */
module ChunkPlans {
  import opened Wrappers
  import opened Whitespace
  import opened TextLines

  // ---- paragraphs ----

  /** A longest run of lines that are not blank. */
  ghost predicate IsRun(lines: seq<string>, a: nat, b: nat) {
    && a < b <= |lines| && (forall i | a <= i < b :: !Blank(lines[i]))
    && (a == 0 || Blank(lines[a - 1])) && (b == |lines| || Blank(lines[b]))
  }

  datatype Span = Span(start: nat, end: nat)

  ghost predicate IsParagraphAt(p: string, lines: seq<string>, span: Span) {
    IsRun(lines, span.start, span.end) && p == Join(lines[span.start..span.end])
  }

  ghost predicate IsInSpan(spans: seq<Span>, i: nat) {
    exists j :: 0 <= j < |spans| && spans[j].start <= i < spans[j].end
  }

  /** The paragraphs of the first `k` lines, in order, and all other of these lines blank. */
  ghost predicate ParagraphsAt(ps: seq<string>, lines: seq<string>, spans: seq<Span>, k: nat) {
    && |spans| == |ps| && k <= |lines|
    && (forall j | 0 <= j < |ps| :: IsParagraphAt(ps[j], lines, spans[j]) && spans[j].end <= k)
    && (forall i, j | 0 <= i < j < |ps| :: spans[i].end <= spans[j].start)
    && forall i: nat | i < k && !Blank(lines[i]) :: IsInSpan(spans, i)
  }

  ghost predicate AreParagraphs(ps: seq<string>, lines: seq<string>) {
    exists spans: seq<Span> :: ParagraphsAt(ps, lines, spans, |lines|)
  }

  lemma InMoreSpans(spans: seq<Span>, span: Span, i: nat)
    requires IsInSpan(spans, i) || span.start <= i < span.end
    ensures IsInSpan(spans + [span], i)
  {
    var more := spans + [span];
    if IsInSpan(spans, i) {
      var j :| 0 <= j < |spans| && spans[j].start <= i < spans[j].end;
      assert more[j] == spans[j];
    } else {
      assert more[|spans|] == span;
    }
  }

  lemma ParagraphsMore(ps: seq<string>, lines: seq<string>, spans: seq<Span>, a: nat, b: nat, p: string)
    requires ParagraphsAt(ps, lines, spans, a) && IsParagraphAt(p, lines, Span(a, b))
    ensures ParagraphsAt(ps + [p], lines, spans + [Span(a, b)], b)
  {
    hide Blank, IsParagraphAt, IsInSpan;
    ParagraphIsInside(p, lines, Span(a, b));
    forall i: nat | i < b && !Blank(lines[i]) ensures IsInSpan(spans + [Span(a, b)], i) {
      InMoreSpans(spans, Span(a, b), i);
    }
  }

  lemma ParagraphIsInside(p: string, lines: seq<string>, span: Span)
    requires IsParagraphAt(p, lines, span)
    ensures span.start < span.end <= |lines|
  {
  }

  lemma BlankGoesBy(ps: seq<string>, lines: seq<string>, spans: seq<Span>, k: nat)
    requires ParagraphsAt(ps, lines, spans, k) && k < |lines| && Blank(lines[k])
    ensures ParagraphsAt(ps, lines, spans, k + 1)
  {
    hide Blank, IsParagraphAt, IsInSpan;
  }

  // ---- line groups ----

  /** Lines that fit together, or one line alone, with no room for the line after them. */
  ghost predicate IsLineGroup(c: string, lines: seq<string>, maxChars: nat, a: nat, b: nat) {
    && a < b <= |lines| && c == Join(lines[a..b])
    && (ByteLen(c) <= maxChars || b == a + 1)
    && (b == |lines| || ByteLen(c) + ByteLen(lines[b]) + 1 > maxChars)
  }

  /** The groups take up the first lines one after the other, up to `at[|groups|]`. */
  ghost predicate GroupsAt(groups: seq<string>, lines: seq<string>, maxChars: nat, at: seq<nat>) {
    && |at| == |groups| + 1 && at[0] == 0
    && forall j | 0 <= j < |groups| :: IsGroupAt(groups[j], lines, maxChars, at, j)
  }

  ghost predicate IsGroupAt(c: string, lines: seq<string>, maxChars: nat, at: seq<nat>, j: nat) {
    j + 1 < |at| && IsLineGroup(c, lines, maxChars, at[j], at[j + 1])
  }

  ghost predicate AreGroups(groups: seq<string>, lines: seq<string>, maxChars: nat) {
    exists at: seq<nat> :: GroupsAt(groups, lines, maxChars, at) && at[|groups|] == |lines|
  }

  lemma GroupsMore(groups: seq<string>, lines: seq<string>, maxChars: nat, at: seq<nat>, c: string, b: nat)
    requires GroupsAt(groups, lines, maxChars, at) && IsLineGroup(c, lines, maxChars, at[|groups|], b)
    ensures GroupsAt(groups + [c], lines, maxChars, at + [b])
  {
    hide IsLineGroup;
    forall j | 0 <= j < |groups| + 1 ensures IsGroupAt((groups + [c])[j], lines, maxChars, at + [b], j) {
      if j < |groups| {
        assert IsGroupAt(groups[j], lines, maxChars, at, j);
      }
    }
  }

  lemma GroupsAreGroups(groups: seq<string>, lines: seq<string>, maxChars: nat)
    requires AreGroups(groups, lines, maxChars)
    ensures forall c | c in groups :: exists a: nat, b: nat :: IsLineGroup(c, lines, maxChars, a, b)
  {
    hide IsLineGroup;
    var at: seq<nat> :| GroupsAt(groups, lines, maxChars, at) && at[|groups|] == |lines|;
    forall c | c in groups ensures exists a: nat, b: nat :: IsLineGroup(c, lines, maxChars, a, b) {
      var j :| 0 <= j < |groups| && groups[j] == c;
      assert IsGroupAt(groups[j], lines, maxChars, at, j);
    }
  }

  // ---- pieces ----

  /** What is put in front of the paragraphs gathered. */
  function Prefix(heading: Option<string>): string {
    match heading
    case Some(h) => h + "\n"
    case None => ""
  }

  /** The heading put in front is a line of its own. */
  lemma HeadingIsALine(heading: string, rest: string)
    requires '\n' !in heading
    ensures Lines(Prefix(Some(heading)) + rest) == [StripCr(heading)] + Lines(rest)
    ensures Prefix(None) + rest == rest
  {
    LineFirst(heading, rest);
  }

  /** One step of taking a section apart: a stretch of paragraphs under the heading, the line groups of a long paragraph, or the
      heading alone because there is no room for the next paragraph, or again before a long one, or last of all. */
  datatype Piece =
    | HeadingAlone(at: nat)
    | HeadingAgain(at: nat)
    | Stretch(from: nat, to: nat)
    | Groups(at: nat, groups: seq<string>)
    | HeadingLast

  /** The paragraphs from `a` to `b` under the heading leave no room for paragraph `b`. */
  ghost predicate Over(ps: seq<string>, heading: Option<string>, maxChars: nat, a: nat, b: nat)
    requires a <= b < |ps|
  {
    ByteLen(Prefix(heading) + Join(ps[a..b])) + ByteLen(ps[b]) > maxChars
  }

  ghost predicate IsLong(p: string, maxChars: nat) {
    ByteLen(p) > maxChars
  }

  /** None of the paragraphs is long, and each but the first had room after those before it. */
  ghost predicate Fits(ps: seq<string>, heading: Option<string>, maxChars: nat, a: nat, b: nat) {
    && a <= b <= |ps| && (forall i | a <= i < b :: !IsLong(ps[i], maxChars))
    && forall i | a < i < b :: !Over(ps, heading, maxChars, a, i)
  }

  /** Nothing has been gathered: at the start, or after a long paragraph. */
  ghost predicate IsFreshAt(pieces: seq<Piece>, k: nat) {
    if pieces == [] then k == 0 else pieces[|pieces| - 1].Groups? && pieces[|pieces| - 1].at + 1 == k
  }

  ghost predicate EndsBefore(pieces: seq<Piece>, k: nat) {
    pieces != [] && pieces[|pieces| - 1].Stretch? && pieces[|pieces| - 1].to == k
  }

  ghost predicate EndsWith(pieces: seq<Piece>, piece: Piece) {
    pieces != [] && pieces[|pieces| - 1] == piece
  }

  /** A stretch may start at paragraph `k`. */
  ghost predicate CanStart(pieces: seq<Piece>, ps: seq<string>, heading: Option<string>, maxChars: nat, k: nat) {
    && k < |ps|
    && (|| (IsFreshAt(pieces, k) && (heading.None? || !Over(ps, heading, maxChars, k, k)))
        || EndsWith(pieces, HeadingAlone(k)) || EndsBefore(pieces, k))
  }

  /** What comes after these pieces. A stretch goes on as long as the next paragraph fits. */
  ghost predicate MayFollow(pieces: seq<Piece>, piece: Piece, ps: seq<string>, heading: Option<string>, maxChars: nat) {
    match piece
    case HeadingAlone(k) =>
      k < |ps| && heading.Some? && IsFreshAt(pieces, k) && Over(ps, heading, maxChars, k, k)
    case HeadingAgain(k) =>
      k < |ps| && heading.Some? && IsLong(ps[k], maxChars) && (EndsWith(pieces, HeadingAlone(k)) || EndsBefore(pieces, k))
    case Stretch(a, b) =>
      && CanStart(pieces, ps, heading, maxChars, a) && a < b && Fits(ps, heading, maxChars, a, b)
      && (b == |ps| || Over(ps, heading, maxChars, a, b))
    case Groups(k, groups) =>
      && k < |ps| && IsLong(ps[k], maxChars) && AreGroups(groups, Lines(ps[k]), maxChars)
      && if heading.Some? then EndsWith(pieces, HeadingAgain(k)) else IsFreshAt(pieces, k) || EndsBefore(pieces, k)
    case HeadingLast =>
      heading.Some? && IsFreshAt(pieces, |ps|)
  }

  ghost predicate IsPlan(pieces: seq<Piece>, ps: seq<string>, heading: Option<string>, maxChars: nat) {
    forall j | 0 <= j < |pieces| :: MayFollow(pieces[..j], pieces[j], ps, heading, maxChars)
  }

  /** Nothing is left. */
  ghost predicate IsDone(pieces: seq<Piece>, ps: seq<string>, heading: Option<string>) {
    EndsBefore(pieces, |ps|) || EndsWith(pieces, HeadingLast) || (heading.None? && IsFreshAt(pieces, |ps|))
  }

  ghost function Trimmed(texts: seq<string>): seq<string> {
    seq(|texts|, i requires 0 <= i < |texts| => Trim(texts[i]))
  }

  /** The chunks that a piece makes. */
  ghost function ContentsOfPiece(piece: Piece, ps: seq<string>, heading: Option<string>): seq<string> {
    match piece
    case HeadingAlone(_) => [Trim(Prefix(heading))]
    case HeadingAgain(_) => [Trim(Prefix(heading))]
    case Stretch(a, b) => if a <= b <= |ps| then [Trim(Prefix(heading) + Join(ps[a..b]))] else []
    case Groups(_, groups) => Trimmed(groups)
    case HeadingLast => [Trim(Prefix(heading))]
  }

  ghost function ContentsOf(pieces: seq<Piece>, ps: seq<string>, heading: Option<string>): seq<string> {
    if |pieces| == 0 then []
    else ContentsOf(pieces[..|pieces| - 1], ps, heading) + ContentsOfPiece(pieces[|pieces| - 1], ps, heading)
  }

  lemma PlanMore(pieces: seq<Piece>, piece: Piece, ps: seq<string>, heading: Option<string>, maxChars: nat)
    requires IsPlan(pieces, ps, heading, maxChars) && MayFollow(pieces, piece, ps, heading, maxChars)
    ensures IsPlan(pieces + [piece], ps, heading, maxChars)
    ensures ContentsOf(pieces + [piece], ps, heading) == ContentsOf(pieces, ps, heading) + ContentsOfPiece(piece, ps, heading)
    ensures EndsWith(pieces + [piece], piece)
  {
    hide MayFollow, ContentsOfPiece;
    var more := pieces + [piece];
    assert more[..|pieces|] == pieces;
    forall j | 0 <= j < |more| ensures MayFollow(more[..j], more[j], ps, heading, maxChars) {
      if j < |pieces| {
        assert more[..j] == pieces[..j];
      }
    }
  }

  /** Where the loop stands before paragraph `k`: those from `from` on are gathered. */
  ghost predicate AtParagraph(
    pieces: seq<Piece>, ps: seq<string>, heading: Option<string>, maxChars: nat, from: nat, k: nat, rest: string)
  {
    && IsPlan(pieces, ps, heading, maxChars) && from <= k <= |ps| && rest == Join(ps[from..k])
    && if from < k then CanStart(pieces, ps, heading, maxChars, from) && Fits(ps, heading, maxChars, from, k)
       else IsFreshAt(pieces, k)
  }

  ghost function FlushedPiece(from: nat, k: nat): Piece {
    if from < k then Stretch(from, k) else HeadingAlone(k)
  }

  /** What is gathered leaves no room for the next paragraph. */
  lemma FlushPiece(
    pieces: seq<Piece>, ps: seq<string>, heading: Option<string>, maxChars: nat, from: nat, k: nat, rest: string)
    requires AtParagraph(pieces, ps, heading, maxChars, from, k, rest) && k < |ps|
    requires ByteLen(Prefix(heading) + rest) + ByteLen(ps[k]) > maxChars && (from < k || heading.Some?)
    ensures var more := pieces + [FlushedPiece(from, k)];
            && IsPlan(more, ps, heading, maxChars) && (EndsWith(more, HeadingAlone(k)) || EndsBefore(more, k))
            && (heading.None? ==> EndsBefore(more, k))
            && ContentsOf(more, ps, heading) == ContentsOf(pieces, ps, heading) + [Trim(Prefix(heading) + rest)]
  {
    hide IsFreshAt, ContentsOf, IsPlan, ByteLen, Prefix, CanStart, Fits, Trim;
    PlanMore(pieces, FlushedPiece(from, k), ps, heading, maxChars);
    NothingRests(ps, from, heading);
  }

  lemma NothingRests(ps: seq<string>, k: nat, heading: Option<string>)
    requires k <= |ps|
    ensures Join(ps[k..k]) == "" && Prefix(heading) + "" == Prefix(heading)
  {
  }

  /** The next paragraph is too long: its line groups, after the heading once more. */
  lemma LongPiece(pieces: seq<Piece>, ps: seq<string>, heading: Option<string>, maxChars: nat, k: nat, groups: seq<string>)
    requires IsPlan(pieces, ps, heading, maxChars) && k < |ps| && IsLong(ps[k], maxChars)
    requires AreGroups(groups, Lines(ps[k]), maxChars)
    requires if heading.Some? then EndsWith(pieces, HeadingAgain(k)) else IsFreshAt(pieces, k) || EndsBefore(pieces, k)
    ensures AtParagraph(pieces + [Groups(k, groups)], ps, heading, maxChars, k + 1, k + 1, "")
    ensures ContentsOf(pieces + [Groups(k, groups)], ps, heading) == ContentsOf(pieces, ps, heading) + Trimmed(groups)
  {
    hide ContentsOf, IsPlan, IsLong, AreGroups, Prefix;
    PlanMore(pieces, Groups(k, groups), ps, heading, maxChars);
    NothingRests(ps, k + 1, heading);
  }

  lemma AgainPiece(pieces: seq<Piece>, ps: seq<string>, heading: Option<string>, maxChars: nat, k: nat)
    requires IsPlan(pieces, ps, heading, maxChars) && k < |ps| && IsLong(ps[k], maxChars) && heading.Some?
    requires EndsWith(pieces, HeadingAlone(k)) || EndsBefore(pieces, k)
    ensures var more := pieces + [HeadingAgain(k)];
            && IsPlan(more, ps, heading, maxChars) && EndsWith(more, HeadingAgain(k))
            && ContentsOf(more, ps, heading) == ContentsOf(pieces, ps, heading) + [Trim(Prefix(heading))]
  {
    hide ContentsOf, IsPlan, IsLong, Prefix, Trim;
    PlanMore(pieces, HeadingAgain(k), ps, heading, maxChars);
  }

  /** The next paragraph starts a stretch. */
  lemma StartStretch(pieces: seq<Piece>, ps: seq<string>, heading: Option<string>, maxChars: nat, k: nat)
    requires IsPlan(pieces, ps, heading, maxChars) && CanStart(pieces, ps, heading, maxChars, k) && !IsLong(ps[k], maxChars)
    ensures AtParagraph(pieces, ps, heading, maxChars, k, k + 1, "" + ps[k] + "\n")
  {
    hide IsPlan, IsLong, Over, IsFreshAt, EndsWith, EndsBefore;
    assert ps[k..k + 1] == [] + [ps[k]];
    JoinMore([], ps[k]);
    NothingRests(ps, k, heading);
    assert ps[k..k] == [];
  }

  /** The next paragraph fits. */
  lemma GoOnStretch(
    pieces: seq<Piece>, ps: seq<string>, heading: Option<string>, maxChars: nat, from: nat, k: nat, rest: string)
    requires AtParagraph(pieces, ps, heading, maxChars, from, k, rest) && from < k < |ps| && !IsLong(ps[k], maxChars)
    requires ByteLen(Prefix(heading) + rest) + ByteLen(ps[k]) <= maxChars
    ensures AtParagraph(pieces, ps, heading, maxChars, from, k + 1, rest + ps[k] + "\n")
  {
    hide CanStart, IsPlan, IsLong, Prefix, ByteLen;
    assert ps[from..k + 1] == ps[from..k] + [ps[k]];
    JoinMore(ps[from..k], ps[k]);
    forall i | from < i < k + 1 ensures !Over(ps, heading, maxChars, from, i) {
    }
  }

  /** At the end what is gathered makes the last piece, or the heading does. */
  lemma LastPiece(pieces: seq<Piece>, ps: seq<string>, heading: Option<string>, maxChars: nat, from: nat, rest: string)
    requires AtParagraph(pieces, ps, heading, maxChars, from, |ps|, rest)
    ensures from < |ps| || heading.Some? ==>
              var more := pieces + [if from < |ps| then Stretch(from, |ps|) else HeadingLast];
              && IsPlan(more, ps, heading, maxChars) && IsDone(more, ps, heading)
              && ContentsOf(more, ps, heading) == ContentsOf(pieces, ps, heading) + [Trim(Prefix(heading) + rest)]
    ensures from == |ps| && heading.None? ==> IsDone(pieces, ps, heading)
  {
    hide IsFreshAt, ContentsOf, IsPlan, ByteLen, Prefix, CanStart, Fits, Trim;
    NothingRests(ps, from, heading);
    if from < |ps| || heading.Some? {
      PlanMore(pieces, if from < |ps| then Stretch(from, |ps|) else HeadingLast, ps, heading, maxChars);
    }
  }

  lemma FreshAtStart(ps: seq<string>, heading: Option<string>, maxChars: nat)
    ensures AtParagraph([], ps, heading, maxChars, 0, 0, "") && ContentsOf([], ps, heading) == []
  {
    NothingRests(ps, 0, heading);
  }
}
