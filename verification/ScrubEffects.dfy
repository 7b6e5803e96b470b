/** What scrubbing leaves alone: only tokens behind a marker and closed PEM blocks ever change. */
module ScrubEffects {
  import opened Wrappers
  import opened Text
  import opened ScrubPatterns
  import opened Scrub
  import opened Cuts

  /** A marker with a token of at least one secret character behind it. */
  ghost predicate IsMarkedToken(t: string, m: string) {
    |t| > |m| && t[..|m|] == m && forall k | |m| <= k < |t| :: IsSecretChar(t[k])
  }

  /** Every removed stretch is a marked token, and no secret character follows it. */
  ghost predicate CutsTokens(cuts: seq<Cut>, tail: string, m: string) {
    |cuts| == 0 ||
    (&& IsMarkedToken(cuts[0].removed, m)
     && (var rest := Original(cuts[1..], tail); rest == "" || !IsSecretChar(rest[0]))
     && CutsTokens(cuts[1..], tail, m))
  }

  lemma FirstTokenCut(c: Cut, cuts: seq<Cut>, tail: string, m: string)
    requires CutsTokens(cuts, tail, m) && IsMarkedToken(c.removed, m)
    requires var rest := Original(cuts, tail); rest == "" || !IsSecretChar(rest[0])
    ensures CutsTokens([c] + cuts, tail, m)
  {
    hide IsMarkedToken, Original;
    assert ([c] + cuts)[1..] == cuts;
  }

  lemma KeepsCutTokens(cuts: seq<Cut>, tail: string, more: seq<Cut>, end: string, m: string)
    requires CutsTokens(cuts, tail, m) && |more| == |cuts|
    requires |cuts| > 0 ==> more[0].removed == cuts[0].removed && more[1..] == cuts[1..] && end == tail
    ensures CutsTokens(more, end, m)
  {
    hide IsMarkedToken;
  }

  lemma TokenBehind(s: string, m: string, i: nat)
    requires OccursAt(s, m, i) && TokenEnd(s, i + |m|) > i + |m|
    ensures var end := TokenEnd(s, i + |m|);
            s == s[..i] + s[i..end] + s[end..] && IsMarkedToken(s[i..end], m)
            && (s[end..] == "" || !IsSecretChar(s[end..][0]))
  {
    TokenEndIsMaximal(s, i + |m|);
  }

  /** The pass for one marker replaces marked tokens, each up to its last character, and keeps all other text. */
  lemma {:induction false} OnlyTokensChange(s: string, m: string) returns (cuts: seq<Cut>, tail: string)
    requires |m| > 0
    ensures s == Original(cuts, tail) && RedactMarker(s, m) == Edited(cuts, tail, Redacted())
    ensures CutsTokens(cuts, tail, m)
    decreases |s|
  {
    hide OccursAt, Redacted, IsMarkedToken, TokenEnd;
    RedactMarkerStep(s, m);
    hide Find, RedactMarker;
    var found := Find(s, m, 0);
    if found.None? {
      return [], s;
    }
    var i := found.value;
    var end := TokenEnd(s, i + |m|);
    FindIsFirst(s, m, 0);
    cuts, tail := OnlyTokensChange(s[end..], m);
    if end == i + |m| {
      Halves(s, end);
      ghost var inner, rest := cuts, tail;
      cuts, tail := KeepInFront(s[..end], inner, rest, Redacted());
      KeepsCutTokens(inner, rest, cuts, tail, m);
    } else {
      TokenBehind(s, m, i);
      FirstCut(Cut(s[..i], s[i..end]), cuts, tail, Redacted());
      FirstTokenCut(Cut(s[..i], s[i..end]), cuts, tail, m);
      cuts := [Cut(s[..i], s[i..end])] + cuts;
    }
  }

  /** Where the pass finds a block. */
  ghost predicate ClosedBlockAt(s: string, i: nat) {
    OccursAt(s, PemBegin(), i) && PemBlockEnd(s, i + |PemBegin()|).Some?
  }

  /** A kind is not empty, and the dashes behind it are the first ones. */
  ghost predicate IsKind(kind: string) {
    kind != "" && forall j: nat | j < |kind| :: !OccursAt(kind + PemSuffix(), PemSuffix(), j)
  }

  /** A begin line with a kind, any text, the end line of that kind, and `rest`. */
  ghost predicate IsBlockThen(t: string, kind: string, body: string, rest: string) {
    IsKind(kind) && t == PemBegin() + kind + PemSuffix() + body + PemEnd(kind) + rest
  }

  /** The text from `i` on starts with a closed block. */
  ghost predicate BlockStarts(s: string, i: nat) {
    i <= |s| && exists kind: string, body: string, rest: string :: IsBlockThen(s[i..], kind, body, rest)
  }

  ghost predicate IsLineBreak(eol: string) {
    eol == "" || eol == "\n" || eol == "\r\n"
  }

  /** The stretch from a begin line to the end line of its kind, with at most one line break after it. */
  ghost predicate IsPemBlock(b: string) {
    exists kind: string, body: string, eol: string :: IsBlockThen(b, kind, body, eol) && IsLineBreak(eol)
  }

  lemma SliceOn(s: string, a: nat, b: nat, c: nat, x: string, y: string)
    requires a <= b <= c <= |s| && s[a..b] == x && s[b..c] == y
    ensures s[a..c] == x + y
  {
    assert s[a..c] == s[a..b] + s[b..c];
  }

  lemma LineBreakEnds(s: string, at: nat)
    requires at <= |s|
    ensures IsLineBreak(s[at..PastLineBreak(s, at)])
  {
    if OccursAt(s, "\r\n", at) {
      assert |"\r\n"| == 2;
    } else if OccursAt(s, "\n", at) {
      assert |"\n"| == 1;
    } else {
      assert s[at..at] == "";
    }
  }

  lemma MiddleOccurs(a: string, b: string, c: string, p: string, i: nat)
    requires i + |p| <= |b|
    ensures OccursAt(a + b + c, p, |a| + i) <==> OccursAt(b, p, i)
  {
    hide OccursAt;
    OccursInLeft(a + b, c, p, |a| + i);
    OccursInRight(a, b, p, |a| + i);
  }

  lemma OccursFits(s: string, p: string, i: nat)
    requires OccursAt(s, p, i)
    ensures i + |p| <= |s| && s[i..i + |p|] == p
  {
  }

  lemma KindInText(s: string, kindStart: nat, kindEnd: nat)
    requires kindStart < kindEnd && FirstFrom(s, PemSuffix(), kindStart, kindEnd)
    ensures kindEnd <= |s| && IsKind(s[kindStart..kindEnd])
  {
    hide PemSuffix, OccursAt;
    OccursFits(s, PemSuffix(), kindEnd);
    var end := kindEnd + |PemSuffix()|;
    var kind := s[kindStart..kindEnd];
    SliceOn(s, kindStart, kindEnd, end, kind, PemSuffix());
    assert s == s[..kindStart] + (kind + PemSuffix()) + s[end..];
    forall j: nat | j < |kind| ensures !OccursAt(kind + PemSuffix(), PemSuffix(), j) {
      MiddleOccurs(s[..kindStart], kind + PemSuffix(), s[end..], PemSuffix(), j);
    }
  }

  lemma SlicesOn(s: string, a: nat, b: nat, c: nat, d: nat, e: nat, f: nat, v: string, w: string, x: string, y: string, z: string)
    requires a <= b <= c <= d <= e <= f <= |s|
    requires s[a..b] == v && s[b..c] == w && s[c..d] == x && s[d..e] == y && s[e..f] == z
    ensures s[a..f] == v + w + x + y + z
  {
    SliceOn(s, a, b, c, v, w);
    SliceOn(s, a, c, d, v + w, x);
    SliceOn(s, a, d, e, v + w + x, y);
    SliceOn(s, a, e, f, v + w + x + y, z);
  }

  lemma ClosesAreSlices(s: string, kindStart: nat, kindEnd: nat, endStart: nat)
    requires Closes(s, kindStart, kindEnd, endStart)
    ensures var bodyStart := kindEnd + |PemSuffix()|;
            && kindStart < kindEnd && bodyStart <= |s| && s[kindEnd..bodyStart] == PemSuffix() && IsKind(s[kindStart..kindEnd])
            && var at := endStart + |PemEnd(s[kindStart..kindEnd])|;
               bodyStart <= endStart && at <= |s| && s[endStart..at] == PemEnd(s[kindStart..kindEnd])
  {
    hide PemBegin, PemSuffix, PemEnd, OccursAt, IsKind;
    OccursFits(s, PemSuffix(), kindEnd);
    OccursFits(s, PemEnd(s[kindStart..kindEnd]), endStart);
    KindInText(s, kindStart, kindEnd);
  }

  lemma PartsOfBlock(s: string, i: nat, kindEnd: nat, endStart: nat, end: nat)
    requires OccursAt(s, PemBegin(), i) && Closes(s, i + |PemBegin()|, kindEnd, endStart)
    requires var at := endStart + |PemEnd(s[i + |PemBegin()|..kindEnd])|; at <= end <= |s|
    ensures var at := endStart + |PemEnd(s[i + |PemBegin()|..kindEnd])|;
            var bodyStart := kindEnd + |PemSuffix()|;
            && bodyStart <= endStart
            && IsBlockThen(s[i..end], s[i + |PemBegin()|..kindEnd], s[bodyStart..endStart], s[at..end])
  {
    hide *;
    var kindStart, bodyStart := i + |PemBegin()|, kindEnd + |PemSuffix()|;
    ClosesAreSlices(s, kindStart, kindEnd, endStart);
    var kind := s[kindStart..kindEnd];
    var at := endStart + |PemEnd(kind)|;
    OccursFits(s, PemBegin(), i);
    SlicesOn(s, i, kindStart, kindEnd, bodyStart, endStart, at, PemBegin(), kind, PemSuffix(), s[bodyStart..endStart], PemEnd(kind));
    SliceOn(s, i, at, end, PemBegin() + kind + PemSuffix() + s[bodyStart..endStart] + PemEnd(kind), s[at..end]);
    MakesBlock(s[i..end], kind, s[bodyStart..endStart], s[at..end]);
  }

  lemma MakesBlock(t: string, kind: string, body: string, rest: string)
    requires IsKind(kind) && t == PemBegin() + kind + PemSuffix() + body + PemEnd(kind) + rest
    ensures IsBlockThen(t, kind, body, rest)
  {
  }

  /** What the pass takes for a block is one. */
  lemma ClosedBlockIsBlock(s: string, i: nat)
    requires ClosedBlockAt(s, i)
    ensures IsPemBlock(s[i..PemBlockEnd(s, i + |PemBegin()|).value])
  {
    hide PemBegin, PemSuffix, PemEnd, OccursAt, PemBlockEnd, IsBlockThen, PastLineBreak, Closes, IsLineBreak;
    var kindStart := i + |PemBegin()|;
    var kindEnd, endStart := PemBlockEndIsClosed(s, kindStart);
    PemBlockEndMeaning(s, kindStart);
    ClosesInside(s, kindStart, kindEnd, endStart);
    var at := endStart + |PemEnd(s[kindStart..kindEnd])|;
    LineBreakEnds(s, at);
    PartsOfBlock(s, i, kindEnd, endStart, PastLineBreak(s, at));
  }

  lemma FoundBlockStarts(s: string, i: nat)
    requires ClosedBlockAt(s, i)
    ensures BlockStarts(s, i)
  {
    hide PemBegin, PemSuffix, PemEnd, OccursAt, PemBlockEnd, IsBlockThen, PastLineBreak, Closes;
    var kindStart := i + |PemBegin()|;
    var kindEnd, endStart := PemBlockEndIsClosed(s, kindStart);
    PemBlockEndMeaning(s, kindStart);
    ClosesInside(s, kindStart, kindEnd, endStart);
    PartsOfBlock(s, i, kindEnd, endStart, |s|);
    assert s[i..|s|] == s[i..];
  }

  lemma PartsInText(s: string, i: nat, kind: string, body: string, rest: string)
    requires i <= |s| && IsBlockThen(s[i..], kind, body, rest)
    ensures s == s[..i] + PemBegin() + (kind + PemSuffix() + body + PemEnd(kind) + rest)
    ensures s == (s[..i] + PemBegin()) + (kind + PemSuffix()) + (body + PemEnd(kind) + rest)
    ensures s == (s[..i] + PemBegin() + kind + PemSuffix() + body) + PemEnd(kind) + rest
  {
    hide PemBegin, PemSuffix, PemEnd, IsKind;
    Halves(s, i);
  }

  /** In a text that holds a closed block the pass finds the kind where it is. */
  lemma KindIsFound(s: string, i: nat, kind: string, body: string, rest: string)
    requires i <= |s| && IsBlockThen(s[i..], kind, body, rest)
    ensures OccursAt(s, PemBegin(), i)
    ensures var kindStart := i + |PemBegin()|;
            && kindStart + |kind| <= |s| && s[kindStart..kindStart + |kind|] == kind
            && FirstFrom(s, PemSuffix(), kindStart, kindStart + |kind|)
  {
    hide PemBegin, PemSuffix, PemEnd, OccursAt;
    PartsInText(s, i, kind, body, rest);
    OccursInMiddle(s[..i], PemBegin(), kind + PemSuffix() + body + PemEnd(kind) + rest);
    var front, middle := s[..i] + PemBegin(), kind + PemSuffix();
    var tail := body + PemEnd(kind) + rest;
    OccursInMiddle(front + kind, PemSuffix(), tail);
    assert front + kind + PemSuffix() + tail == s;
    forall j: nat | i + |PemBegin()| <= j < i + |PemBegin()| + |kind| ensures !OccursAt(s, PemSuffix(), j) {
      MiddleOccurs(front, middle, tail, PemSuffix(), j - |front|);
    }
  }

  lemma StartedBlockIsFound(s: string, i: nat)
    requires BlockStarts(s, i)
    ensures ClosedBlockAt(s, i)
  {
    hide PemBegin, PemSuffix, PemEnd, OccursAt, Find, FirstFrom;
    var kind: string, body: string, rest: string :| IsBlockThen(s[i..], kind, body, rest);
    KindIsFound(s, i, kind, body, rest);
    var kindStart := i + |PemBegin()|;
    var kindEnd := kindStart + |kind|;
    FirstFromIsFound(s, PemSuffix(), kindStart, kindEnd);
    EndLineIsFound(s, i, kind, body, rest);
  }

  lemma EndLineIsFound(s: string, i: nat, kind: string, body: string, rest: string)
    requires i <= |s| && IsBlockThen(s[i..], kind, body, rest)
    ensures var from := i + |PemBegin()| + |kind| + |PemSuffix()|;
            from <= |s| && Find(s, PemEnd(kind), from).Some?
  {
    hide PemBegin, PemSuffix, PemEnd, OccursAt, Find, IsKind;
    PartsInText(s, i, kind, body, rest);
    var front := s[..i] + PemBegin() + kind + PemSuffix() + body;
    OccursInMiddle(front, PemEnd(kind), rest);
    FindIsFirst(s, PemEnd(kind), i + |PemBegin()| + |kind| + |PemSuffix()|);
  }

  /** The pass finds a block exactly where the text has one. */
  lemma BlocksAreFound(s: string, i: nat)
    ensures ClosedBlockAt(s, i) <==> BlockStarts(s, i)
  {
    hide ClosedBlockAt, BlockStarts;
    if ClosedBlockAt(s, i) {
      FoundBlockStarts(s, i);
    }
    if BlockStarts(s, i) {
      StartedBlockIsFound(s, i);
    }
  }

  ghost predicate CutsBlocks(cuts: seq<Cut>) {
    forall c | c in cuts :: IsPemBlock(c.removed)
  }

  /** The pass for PEM blocks replaces whole blocks and keeps all other text. */
  lemma {:induction false} OnlyBlocksChange(s: string) returns (cuts: seq<Cut>, tail: string)
    ensures s == Original(cuts, tail) && RedactPem(s) == Edited(cuts, tail, RedactedPem()) && CutsBlocks(cuts)
    decreases |s|
  {
    hide OccursAt, RedactedPem, PemBegin, PemBlockEnd, IsPemBlock;
    RedactPemStep(s);
    hide Find, RedactPem;
    var found := Find(s, PemBegin(), 0);
    if found.None? {
      return [], s;
    }
    var i := found.value;
    var kindStart := i + |PemBegin()|;
    FindIsFirst(s, PemBegin(), 0);
    if PemBlockEnd(s, kindStart).None? {
      cuts, tail := OnlyBlocksChange(s[kindStart..]);
      Halves(s, kindStart);
      ghost var inner := cuts;
      cuts, tail := KeepInFront(s[..kindStart], cuts, tail, RedactedPem());
      forall c | c in cuts ensures IsPemBlock(c.removed) {
        var k :| 0 <= k < |cuts| && cuts[k] == c;
        assert inner[k] in inner;
      }
    } else {
      var end := PemBlockEnd(s, kindStart).value;
      ClosedBlockIsBlock(s, i);
      cuts, tail := OnlyBlocksChange(s[end..]);
      SplitAfter("", s, i, end);
      FirstCut(Cut(s[..i], s[i..end]), cuts, tail, RedactedPem());
      cuts := [Cut(s[..i], s[i..end])] + cuts;
    }
  }

  ghost predicate NoneFound(s: string) {
    forall i: nat :: !ClosedBlockAt(s, i)
  }

  lemma SpaceIsLast()
    ensures |PemBegin()| == 11 && PemBegin()[10] == ' ' && forall k | 0 <= k < 10 :: PemBegin()[k] != ' '
  {
  }

  lemma OccursChar(s: string, p: string, i: nat, k: nat)
    requires k < |p| && i + k < |s|
    ensures OccursAt(s, p, i) ==> s[i + k] == p[k]
  {
    assert OccursAt(s, p, i) ==> s[i..i + |p|][k] == s[i + k];
  }

  lemma BeginDoesNotOverlap(s: string, i: nat, j: nat)
    requires OccursAt(s, PemBegin(), i) && i < j < i + |PemBegin()|
    ensures !OccursAt(s, PemBegin(), j)
  {
    hide *;
    SpaceIsLast();
    BeginFits(s, i);
    OccursChar(s, PemBegin(), i, 10);
    OccursChar(s, PemBegin(), j, i + 10 - j);
  }

  lemma BeginFits(s: string, i: nat)
    requires OccursAt(s, PemBegin(), i)
    ensures i + |PemBegin()| <= |s|
  {
  }

  /** A block further on is seen in the rest of the text as well. */
  lemma ClosedInRest(s: string, from: nat, i: nat)
    requires from <= |s| && from <= i
    ensures ClosedBlockAt(s, i) <==> ClosedBlockAt(s[from..], i - from)
  {
    hide PemBegin, PemBlockEnd;
    assert OccursAt(s, PemBegin(), i) <==> OccursAt(s[from..], PemBegin(), i - from) by {
      Halves(s, from);
      OccursInRight(s[..from], s[from..], PemBegin(), i);
    }
    if OccursAt(s, PemBegin(), i) {
      PemBlockEndInRest(s, from, i + |PemBegin()|);
    }
  }

  lemma LabelIsSeen(s: string, i: nat, rest: string)
    requires OccursAt(s, PemBegin(), i)
    ensures (s[..i] + RedactedPem()) + rest != s
  {
    assert ((s[..i] + RedactedPem()) + rest)[i] == '[';
    assert s[i..i + |PemBegin()|][0] == s[i];
  }

  lemma SamePrefix(a: string, b: string, c: string)
    ensures a + b == a + c <==> b == c
  {
    assert (a + b)[|a|..] == b && (a + c)[|a|..] == c;
  }

  /** Before the rest of the text that starts behind the first begin line, only that line can open a block. */
  lemma BlockIsInRest(s: string, i: nat, j: nat)
    requires Find(s, PemBegin(), 0) == Some(i) && ClosedBlockAt(s, j) && j != i
    ensures i + |PemBegin()| <= j
  {
    hide PemBegin, PemBlockEnd, Find;
    FindIsFirst(s, PemBegin(), 0);
    if i < j < i + |PemBegin()| {
      BeginDoesNotOverlap(s, i, j);
    }
  }

  lemma BlocksInRest(s: string, i: nat)
    requires Find(s, PemBegin(), 0) == Some(i) && !ClosedBlockAt(s, i) && i + |PemBegin()| <= |s|
    requires NoneFound(s[i + |PemBegin()|..])
    ensures NoneFound(s)
  {
    hide ClosedBlockAt, PemBegin, Find;
    forall j: nat ensures !ClosedBlockAt(s, j) {
      if ClosedBlockAt(s, j) {
        BlockIsInRest(s, i, j);
        ClosedInRest(s, i + |PemBegin()|, j);
      }
    }
  }

  lemma BlocksOfRest(s: string, from: nat)
    requires from <= |s| && NoneFound(s)
    ensures NoneFound(s[from..])
  {
    hide ClosedBlockAt;
    forall j: nat ensures !ClosedBlockAt(s[from..], j) {
      assert !ClosedBlockAt(s, from + j);
      ClosedInRest(s, from, from + j);
    }
  }

  lemma {:induction false} PemPassUnchanged(s: string)
    ensures RedactPem(s) == s <==> NoneFound(s)
    decreases |s|
  {
    hide OccursAt, RedactedPem, PemBegin, PemBlockEnd;
    RedactPemStep(s);
    hide Find, RedactPem;
    var found := Find(s, PemBegin(), 0);
    FindIsFirst(s, PemBegin(), 0);
    if found.Some? {
      var i := found.value;
      var kindStart := i + |PemBegin()|;
      if PemBlockEnd(s, kindStart).None? {
        PemPassUnchanged(s[kindStart..]);
        Halves(s, kindStart);
        SamePrefix(s[..kindStart], RedactPem(s[kindStart..]), s[kindStart..]);
        if NoneFound(s[kindStart..]) {
          BlocksInRest(s, i);
        }
        if NoneFound(s) {
          BlocksOfRest(s, kindStart);
        }
      } else {
        assert ClosedBlockAt(s, i);
        LabelIsSeen(s, i, RedactPem(s[PemBlockEnd(s, kindStart).value..]));
      }
    }
  }

  ghost predicate NoClosedBlock(s: string) {
    forall i: nat :: !BlockStarts(s, i)
  }

  lemma NoneFoundMeansNoBlock(s: string)
    ensures NoneFound(s) <==> NoClosedBlock(s)
  {
    hide ClosedBlockAt, BlockStarts;
    forall i: nat ensures ClosedBlockAt(s, i) <==> BlockStarts(s, i) {
      BlocksAreFound(s, i);
    }
  }

  /** The pass for PEM blocks changes the text exactly when there is a closed block in it. */
  lemma RedactPemUnchanged(s: string)
    ensures RedactPem(s) == s <==> NoClosedBlock(s)
  {
    hide NoneFound, NoClosedBlock, RedactPem;
    PemPassUnchanged(s);
    NoneFoundMeansNoBlock(s);
  }

  lemma {:induction false} RedactEachUnchanged(s: string, markers: seq<string>)
    requires forall m | m in markers :: |m| > 0 && GoodMarker(m) && Clean(s, m)
    ensures RedactEach(s, markers) == s
  {
    hide GoodMarker, Clean, RedactMarker;
    if |markers| > 0 {
      assert markers[0] in markers;
      RedactMarkerUnchanged(s, markers[0]);
      RedactEachUnchanged(s, markers[1..]);
    }
  }

  lemma NothingToScrub(s: string)
    requires forall m | m in PrefixPatterns() + MarkerPatterns() :: !Contains(s, m)
    ensures NoneFound(s)
  {
    hide MarkerPatterns, Find;
    assert PrefixPatterns()[15] == PemBegin();
    assert PemBegin() in PrefixPatterns() + MarkerPatterns();
    hide PrefixPatterns, PemBegin;
    assert !Contains(s, PemBegin());
    FindIsFirst(s, PemBegin(), 0);
  }

  /** Scrubbing changes a text exactly when a marker exposes a token in it or a PEM block is closed in it. */
  lemma ScrubbedUnchanged(input: string)
    ensures Scrubbed(input) == input <==>
            && (forall m | m in PrefixPatterns() + MarkerPatterns() && m != PemBegin() :: Clean(input, m))
            && NoClosedBlock(input)
  {
    hide GoodMarker, Clean, RedactEach, RedactPem, PemBegin, PrefixPatterns, MarkerPatterns, Find, WithoutPem, NoClosedBlock, NoneFound;
    PatternsAreGood();
    forall m | m in PrefixPatterns() + MarkerPatterns() && m != PemBegin() ensures Clean(Scrubbed(input), m) {
      ScrubbedIsClean(input, m);
    }
    if forall m | m in PrefixPatterns() + MarkerPatterns() && m != PemBegin() :: Clean(input, m) {
      RedactPemUnchanged(input);
      RedactEachUnchanged(input, WithoutPem(PrefixPatterns()));
      PemIsNoMarker();
      RedactEachUnchanged(input, MarkerPatterns());
      if !NeedsScrubbing(input) {
        NothingToScrub(input);
        NoneFoundMeansNoBlock(input);
      }
    }
  }

  lemma PemIsNoMarker()
    ensures PemBegin() !in MarkerPatterns()
  {
    hide IsSecretChar;
  }

  // ---- the whole scrub ----

  /** `t` is `s` with some marked tokens replaced by the label, all other text in place. */
  ghost predicate IsTokenPass(s: string, t: string, m: string) {
    exists cuts: seq<Cut>, tail: string :: s == Original(cuts, tail) && t == Edited(cuts, tail, Redacted()) && CutsTokens(cuts, tail, m)
  }

  /** `t` is `s` with some PEM blocks replaced by their label, all other text in place. */
  ghost predicate IsBlockPass(s: string, t: string) {
    exists cuts: seq<Cut>, tail: string :: s == Original(cuts, tail) && t == Edited(cuts, tail, RedactedPem()) && CutsBlocks(cuts)
  }

  /** The texts after each of the passes for the markers, in turn. */
  ghost predicate AreTokenPasses(texts: seq<string>, markers: seq<string>) {
    |texts| == |markers| + 1 && forall k | 0 <= k < |markers| :: IsTokenPass(texts[k], texts[k + 1], markers[k])
  }

  lemma {:induction false} RedactEachPasses(s: string, markers: seq<string>) returns (texts: seq<string>)
    requires forall m | m in markers :: |m| > 0
    ensures AreTokenPasses(texts, markers) && texts[0] == s && texts[|markers|] == RedactEach(s, markers)
    decreases |markers|
  {
    hide IsTokenPass, RedactMarker;
    if |markers| == 0 {
      texts := [s];
    } else {
      TokenPass(s, markers[0]);
      var rest := RedactEachPasses(RedactMarker(s, markers[0]), markers[1..]);
      texts := [s] + rest;
      forall k | 0 <= k < |markers| ensures IsTokenPass(texts[k], texts[k + 1], markers[k]) {
        if k > 0 {
          assert IsTokenPass(rest[k - 1], rest[k], markers[1..][k - 1]);
        }
      }
    }
  }

  lemma TokenPass(s: string, m: string)
    requires |m| > 0
    ensures IsTokenPass(s, RedactMarker(s, m), m)
  {
    hide RedactMarker, Original, Edited, CutsTokens;
    var cuts, tail := OnlyTokensChange(s, m);
  }

  lemma BlockPass(s: string)
    ensures IsBlockPass(s, RedactPem(s))
  {
    hide RedactPem, Original, Edited, CutsBlocks;
    var cuts, tail := OnlyBlocksChange(s);
  }

  lemma {:induction false} RedactEachConcat(s: string, a: seq<string>, b: seq<string>)
    requires forall m | m in a + b :: |m| > 0
    ensures RedactEach(s, a + b) == RedactEach(RedactEach(s, a), b)
    decreases |a|
  {
    hide RedactMarker;
    if |a| == 0 {
      assert a + b == b;
    } else {
      assert (a + b)[1..] == a[1..] + b;
      RedactEachConcat(RedactMarker(s, a[0]), a[1..], b);
    }
  }

  lemma NothingToRedact(s: string, markers: seq<string>)
    requires forall m | m in markers :: |m| > 0 && GoodMarker(m) && !Contains(s, m)
    ensures RedactEach(s, markers) == s
  {
    hide GoodMarker, Clean, Find;
    forall m | m in markers ensures Clean(s, m) {
      FindNone(s, m);
      AbsentIsClean(s, m);
    }
    RedactEachUnchanged(s, markers);
  }

  /** Scrubbing is one pass for each marker, in the order of the lists, and one for PEM blocks; no pass changes anything but
      marked tokens or PEM blocks. */
  lemma ScrubbedInPasses(input: string) returns (texts: seq<string>)
    ensures AreTokenPasses(texts, WithoutPem(PrefixPatterns()) + MarkerPatterns())
    ensures texts[0] == input && IsBlockPass(texts[|texts| - 1], Scrubbed(input))
  {
    hide GoodMarker, Clean, RedactEach, RedactPem, PemBegin, PrefixPatterns, MarkerPatterns, Find, WithoutPem, AreTokenPasses, IsBlockPass, NoneFound;
    PatternsAreGood();
    var markers := WithoutPem(PrefixPatterns()) + MarkerPatterns();
    texts := RedactEachPasses(input, markers);
    RedactEachConcat(input, WithoutPem(PrefixPatterns()), MarkerPatterns());
    BlockPass(RedactEach(input, markers));
    PassCount(texts, markers);
    if !NeedsScrubbing(input) {
      NothingToRedact(input, markers);
      NothingToScrub(input);
      PemPassUnchanged(input);
    }
  }

  lemma PassCount(texts: seq<string>, markers: seq<string>)
    requires AreTokenPasses(texts, markers)
    ensures |texts| == |markers| + 1
  {
  }
}
