/** Redacting secret-like tokens in a text before it is shown. */
module Scrub {
  import opened Wrappers
  import opened Text
  import opened ScrubPatterns

  /** The end of the run of secret characters that starts at `from`. */
  function TokenEnd(s: string, from: nat): (end: nat)
    requires from <= |s|
    ensures from <= end <= |s|
    decreases |s| - from
  {
    if from < |s| && IsSecretChar(s[from]) then TokenEnd(s, from + 1) else from
  }

  /** It is the longest run. */
  lemma {:induction false} TokenEndIsMaximal(s: string, from: nat)
    requires from <= |s|
    ensures forall j | from <= j < TokenEnd(s, from) :: IsSecretChar(s[j])
    ensures TokenEnd(s, from) < |s| ==> !IsSecretChar(s[TokenEnd(s, from)])
    decreases |s| - from
  {
    if from < |s| && IsSecretChar(s[from]) {
      TokenEndIsMaximal(s, from + 1);
    }
  }

  method FindTokenEnd(input: string, from: nat) returns (end: nat)
    requires from <= |input|
    ensures end == TokenEnd(input, from)
  {
    end := from;
    for i := from to |input|
      invariant end == i && TokenEnd(input, from) == TokenEnd(input, i)
    {
      if !IsSecretChar(input[i]) {
        return;
      }
      end := i + 1;
    }
  }

  /** The marker at `i` is followed by token text. */
  ghost predicate Exposed(s: string, m: string, i: nat) {
    OccursAt(s, m, i) && i + |m| < |s| && IsSecretChar(s[i + |m|])
  }

  /** Nowhere does the marker stand in front of token text. */
  ghost predicate Clean(s: string, m: string) {
    forall i: nat :: !Exposed(s, m, i)
  }

  lemma ExposedIsOccurrence(s: string, m: string, c: char, i: nat)
    ensures OccursAt(s, m + [c], i) <==> OccursAt(s, m, i) && i + |m| < |s| && s[i + |m|] == c
  {
    if i + |m| < |s| {
      assert s[i..i + |m| + 1] == s[i..i + |m|] + [s[i + |m|]];
      assert (m + [c])[..|m|] == m && (m + [c])[|m|] == c;
    }
  }

  lemma CleanIsAbsence(s: string, m: string)
    ensures Clean(s, m) <==> forall c | IsSecretChar(c) :: !Occurs(s, m + [c])
  {
    if Clean(s, m) {
      forall c, i: nat | IsSecretChar(c) ensures !OccursAt(s, m + [c], i) {
        ExposedIsOccurrence(s, m, c, i);
        assert !Exposed(s, m, i);
      }
    } else {
      var i: nat :| Exposed(s, m, i);
      ExposedIsOccurrence(s, m, s[i + |m|], i);
    }
  }

  lemma AbsentIsClean(s: string, m: string)
    requires !Occurs(s, m)
    ensures Clean(s, m)
  {
  }

  lemma CleanParts(a: string, b: string, m: string)
    requires Clean(a + b, m)
    ensures Clean(a, m) && Clean(b, m)
  {
    CleanIsAbsence(a + b, m);
    forall c | IsSecretChar(c) ensures !Occurs(a, m + [c]) && !Occurs(b, m + [c]) {
      AbsentInParts(a, b, m + [c]);
    }
    CleanIsAbsence(a, m);
    CleanIsAbsence(b, m);
  }

  /** Putting a label in place of a stretch exposes nothing. */
  lemma LabelKeepsClean(a: string, cut: string, b: string, r: string, m: string)
    requires GoodMarker(m) && IsLabel(r) && Clean(a + cut + b, m)
    ensures Clean(a + r + b, m)
  {
    CleanIsAbsence(a + cut + b, m);
    forall c | IsSecretChar(c) ensures !Occurs(a + r + b, m + [c]) {
      LabelBlocks(m, c, r);
      SpliceKeepsAbsent(a, cut, b, r, m + [c]);
    }
    CleanIsAbsence(a + r + b, m);
  }

  lemma LabelSeparates(a: string, r: string, b: string, m: string)
    requires GoodMarker(m) && IsLabel(r) && Clean(a, m) && Clean(b, m)
    ensures Clean(a + r + b, m)
  {
    CleanIsAbsence(a, m);
    CleanIsAbsence(b, m);
    forall c | IsSecretChar(c) ensures !Occurs(a + r + b, m + [c]) {
      LabelBlocks(m, c, r);
      AbsentInSplice(a, r, b, m + [c]);
    }
    CleanIsAbsence(a + r + b, m);
  }

  // ---- one marker ----

  /** The text after the pass for one marker: each marker with a token behind it becomes the label. */
  function RedactMarker(s: string, m: string): string
    requires |m| > 0
    decreases |s|
  {
    match Find(s, m, 0)
    case None => s
    case Some(i) =>
      var end := TokenEnd(s, i + |m|);
      if end == i + |m| then s[..end] + RedactMarker(s[end..], m)
      else (s[..i] + Redacted()) + RedactMarker(s[end..], m)
  }

  lemma RedactMarkerStep(s: string, m: string)
    requires |m| > 0
    ensures Find(s, m, 0).None? ==> RedactMarker(s, m) == s
    ensures Find(s, m, 0).Some? ==>
              var i := Find(s, m, 0).value;
              var end := TokenEnd(s, i + |m|);
              && (end == i + |m| ==> RedactMarker(s, m) == s[..end] + RedactMarker(s[end..], m))
              && (end != i + |m| ==> RedactMarker(s, m) == (s[..i] + Redacted()) + RedactMarker(s[end..], m))
  {
    hide Find, TokenEnd, Redacted, OccursAt;
  }

  /** The pass changes the first character only into the start of a label. */
  lemma {:induction false} RedactMarkerHead(s: string, m: string)
    requires |m| > 0
    ensures |s| == 0 ==> RedactMarker(s, m) == ""
    ensures |s| > 0 ==> |RedactMarker(s, m)| > 0 && RedactMarker(s, m)[0] in {s[0], '['}
  {
  }

  /** A bare marker is passed over, and no marker that begins inside it can be completed by what follows. */
  lemma BareMarkerStaysClean(s: string, m: string, i: nat, rest: string)
    requires GoodMarker(m) && Find(s, m, 0) == Some(i) && Clean(rest, m)
    requires rest == "" || !IsSecretChar(rest[0])
    ensures Clean(s[..i + |m|] + rest, m)
  {
    hide GoodMarker, Find, IsSecretChar;
    FindIsFirst(s, m, 0);
    var end := i + |m|;
    var t := s[..end] + rest;
    Halves(s, end);
    forall q: nat ensures !Exposed(t, m, q) {
      if q >= end {
        OccursInRight(s[..end], rest, m, q);
        assert !Exposed(rest, m, q - end);
      } else if q < i {
        OccursInLeft(s[..end], rest, m, q);
        OccursInLeft(s[..end], s[end..], m, q);
      } else if q > i && rest != "" {
        BorderNeedsSecret(t, m, i, q);
      }
    }
  }

  /** Two overlapping occurrences of a marker: where the first ends, the second has a secret character. */
  lemma BorderNeedsSecret(t: string, m: string, i: nat, q: nat)
    requires GoodMarker(m) && i < q < i + |m| < |t| && OccursAt(t, m, i) && !IsSecretChar(t[i + |m|])
    ensures !OccursAt(t, m, q)
  {
    var k := i + |m| - q;
    assert t[i..i + |m|][|m| - 1] == t[i + |m| - 1];
    if q + |m| <= |t| && t[q..q + |m|][k - 1] == m[k - 1] {
      assert t[q..q + |m|][k - 1] == t[i + |m| - 1];
      assert IsSecretChar(m[k]);
      assert t[q..q + |m|][k] == t[i + |m|];
    }
  }

  lemma RestAfterBareMarker(s: string, m: string, end: nat)
    requires |m| > 0 && end <= |s| && (end < |s| ==> !IsSecretChar(s[end]))
    ensures var rest := RedactMarker(s[end..], m); rest == "" || !IsSecretChar(rest[0])
  {
    hide RedactMarker;
    RedactMarkerHead(s[end..], m);
  }

  lemma PassOverBare(s: string, m: string, i: nat)
    requires |m| > 0 && GoodMarker(m) && Find(s, m, 0) == Some(i) && TokenEnd(s, i + |m|) == i + |m|
    requires Clean(RedactMarker(s[i + |m|..], m), m)
    ensures Clean(RedactMarker(s, m), m)
  {
    hide *;
    RedactMarkerStep(s, m);
    TokenEndIsMaximal(s, i + |m|);
    RestAfterBareMarker(s, m, i + |m|);
    BareMarkerStaysClean(s, m, i, RedactMarker(s[i + |m|..], m));
  }

  lemma PassReplaces(s: string, m: string, i: nat)
    requires |m| > 0 && GoodMarker(m) && Find(s, m, 0) == Some(i) && TokenEnd(s, i + |m|) != i + |m|
    requires Clean(RedactMarker(s[TokenEnd(s, i + |m|)..], m), m)
    ensures Clean(RedactMarker(s, m), m)
  {
    hide *;
    RedactMarkerStep(s, m);
    AbsentBeforeFirst(s, m, i);
    AbsentIsClean(s[..i], m);
    LabelsAreLabels();
    LabelSeparates(s[..i], Redacted(), RedactMarker(s[TokenEnd(s, i + |m|)..], m), m);
  }

  lemma {:induction false} RedactMarkerIsClean(s: string, m: string)
    requires |m| > 0 && GoodMarker(m)
    ensures Clean(RedactMarker(s, m), m)
    decreases |s|
  {
    hide *;
    var found := Find(s, m, 0);
    if found.Some? {
      var i := found.value;
      RedactMarkerIsClean(s[TokenEnd(s, i + |m|)..], m);
      if TokenEnd(s, i + |m|) == i + |m| {
        PassOverBare(s, m, i);
      } else {
        PassReplaces(s, m, i);
      }
    } else {
      RedactMarkerStep(s, m);
      FindNone(s, m);
      AbsentIsClean(s, m);
    }
  }

  /** Redacting one marker exposes no other, whatever stands before the text. */
  lemma {:induction false} RedactMarkerKeepsClean(a: string, s: string, m: string, other: string)
    requires |m| > 0 && GoodMarker(other) && Clean(a + s, other)
    ensures Clean(a + RedactMarker(s, m), other)
    decreases |s|
  {
    hide *;
    RedactMarkerStep(s, m);
    LabelsAreLabels();
    var found := Find(s, m, 0);
    if found.Some? {
      var i := found.value;
      var end := TokenEnd(s, i + |m|);
      SplitAfter(a, s, i, end);
      if end == i + |m| {
        RedactMarkerKeepsClean(a + s[..end], s[end..], m, other);
        Reassociate(a, s[..end], "", RedactMarker(s[end..], m));
      } else {
        LabelKeepsClean(a + s[..i], s[i..end], s[end..], Redacted(), other);
        RedactMarkerKeepsClean(a + s[..i] + Redacted(), s[end..], m, other);
        Reassociate(a, s[..i], Redacted(), RedactMarker(s[end..], m));
      }
    }
  }

  /** A text is left as it is exactly when the marker exposes nothing in it. */
  lemma {:induction false} RedactMarkerUnchanged(s: string, m: string)
    requires |m| > 0 && GoodMarker(m)
    ensures RedactMarker(s, m) == s <==> Clean(s, m)
    decreases |s|
  {
    hide *;
    RedactMarkerIsClean(s, m);
    RedactMarkerStep(s, m);
    var found := Find(s, m, 0);
    if Clean(s, m) && found.Some? {
      var end := found.value + |m|;
      FoundSplits(s, m, found.value);
      CleanMarkerIsBare(s, m, found.value);
      Halves(s, end);
      CleanParts(s[..end], s[end..], m);
      RedactMarkerUnchanged(s[end..], m);
    }
  }

  lemma CleanMarkerIsBare(s: string, m: string, i: nat)
    requires Clean(s, m) && OccursAt(s, m, i)
    ensures TokenEnd(s, i + |m|) == i + |m|
  {
    assert !Exposed(s, m, i);
  }

  lemma {:induction false} TokenEndInRest(s: string, from: nat, i: nat)
    requires from <= i <= |s|
    ensures TokenEnd(s, i) == from + TokenEnd(s[from..], i - from)
    decreases |s| - i
  {
    if i < |s| && IsSecretChar(s[i]) {
      TokenEndInRest(s, from, i + 1);
    }
  }

  /** One turn of the pass, at an offset. */
  lemma RedactMarkerFrom(s: string, m: string, from: nat)
    requires |m| > 0 && from <= |s|
    ensures match Find(s, m, from)
            case None => RedactMarker(s[from..], m) == s[from..]
            case Some(start) =>
              var end := TokenEnd(s, start + |m|);
              RedactMarker(s[from..], m)
              == if end == start + |m| then s[from..end] + RedactMarker(s[end..], m)
                 else (s[from..start] + Redacted()) + RedactMarker(s[end..], m)
  {
    hide RedactMarker, Redacted, Find, OccursAt, TokenEnd;
    FindInRest(s, m, from, from);
    RedactMarkerStep(s[from..], m);
    var found := Find(s, m, from);
    if found.Some? {
      var start := found.value;
      TokenEndInRest(s, from, start + |m|);
      SliceOfRest(s, from, start, TokenEnd(s, start + |m|));
    }
  }

  lemma SliceOfRest(s: string, from: nat, start: nat, end: nat)
    requires from <= start <= end <= |s|
    ensures s[from..][end - from..] == s[end..]
    ensures s[from..][..end - from] == s[from..end]
    ensures s[from..][..start - from] == s[from..start]
  {
  }

  lemma AfterReplacing(s: string, from: nat, start: nat, end: nat, r: string, rest: string)
    requires from <= start <= end <= |s|
    ensures var t := s[..start] + r + s[end..];
            t[..start + |r|] + rest == s[..from] + ((s[from..start] + r) + rest) && t[start + |r|..] == s[end..]
    ensures s[..end] + rest == s[..from] + (s[from..end] + rest)
    ensures s[..from] + s[from..] == s
  {
    assert s[..from] + s[from..end] == s[..end];
    assert s[..from] + s[from..start] == s[..start];
    assert (s[..start] + r + s[end..])[..start + |r|] == s[..start] + r;
    Reassociate(s[..from], s[from..start], r, rest);
    Reassociate(s[..from], s[from..end], "", rest);
  }

  /** A turn of the loop moves the offset on without changing what the pass will give. */
  lemma TurnKeepsResult(s: string, m: string, from: nat, start: nat)
    requires |m| > 0 && from <= |s| && Find(s, m, from) == Some(start)
    ensures var end := TokenEnd(s, start + |m|);
            end == start + |m| ==> s[..from] + RedactMarker(s[from..], m) == s[..end] + RedactMarker(s[end..], m)
    ensures var end := TokenEnd(s, start + |m|);
            var t, next := s[..start] + Redacted() + s[end..], start + |Redacted()|;
            end != start + |m| ==> s[..from] + RedactMarker(s[from..], m) == t[..next] + RedactMarker(t[next..], m)
  {
    hide *;
    RedactMarkerFrom(s, m, from);
    var end := TokenEnd(s, start + |m|);
    AfterReplacing(s, from, start, end, Redacted(), RedactMarker(s[end..], m));
  }

  lemma ExposedAt(s: string, m: string, i: nat)
    requires OccursAt(s, m, i) && TokenEnd(s, i + |m|) > i + |m|
    ensures !Clean(s, m)
  {
    assert Exposed(s, m, i);
  }

  method ScrubAfterMarker(input: string, marker: string) returns (scrubbed: string, modified: bool)
    requires |marker| > 0
    ensures scrubbed == RedactMarker(input, marker)
    ensures GoodMarker(marker) ==> (modified <==> !Clean(input, marker))
  {
    hide *;
    LabelsAreLabels();
    Halves(input, 0);
    scrubbed, modified := input, false;
    var searchFrom: nat := 0;
    assert input[0..] == input;
    while true
      invariant searchFrom <= |scrubbed|
      invariant RedactMarker(input, marker) == scrubbed[..searchFrom] + RedactMarker(scrubbed[searchFrom..], marker)
      invariant !modified ==> scrubbed == input
      invariant modified ==> !Clean(input, marker)
      decreases |scrubbed| - searchFrom
    {
      var found := Find(scrubbed, marker, searchFrom);
      if found.None? {
        RedactMarkerFrom(scrubbed, marker, searchFrom);
        break;
      }
      var start := found.value;
      var contentStart := start + |marker|;
      var end := FindTokenEnd(scrubbed, contentStart);
      TurnKeepsResult(scrubbed, marker, searchFrom, start);
      if end == contentStart {
        searchFrom := contentStart;
        continue;
      }
      FindIsFirst(scrubbed, marker, searchFrom);
      ExposedAt(scrubbed, marker, start);
      scrubbed := scrubbed[..start] + Redacted() + scrubbed[end..];
      modified := true;
      searchFrom := start + |Redacted()|;
    }
    AfterReplacing(scrubbed, searchFrom, searchFrom, searchFrom, "", "");
    if GoodMarker(marker) {
      RedactMarkerUnchanged(input, marker);
    }
  }

  // ---- PEM blocks ----

  /** The end of the block whose kind starts at `kindStart`, with a line break after it, or none if it is not closed. */
  function PemBlockEnd(s: string, kindStart: nat): (r: Option<nat>)
    requires kindStart <= |s|
    ensures r.Some? ==> kindStart < r.value <= |s|
  {
    match Find(s, PemSuffix(), kindStart)
    case None => None
    case Some(kindEnd) =>
      if kindEnd == kindStart then None
      else
        var endMarker := PemEnd(s[kindStart..kindEnd]);
        match Find(s, endMarker, kindEnd + |PemSuffix()|)
        case None => None
        case Some(endStart) =>
          Some(PastLineBreak(s, endStart + |endMarker|))
  }

  /** `at`, or the place behind the line break that stands there. */
  function PastLineBreak(s: string, at: nat): (end: nat)
    requires at <= |s|
    ensures at <= end <= |s|
  {
    if OccursAt(s, "\r\n", at) then at + 2 else if OccursAt(s, "\n", at) then at + 1 else at
  }

  /** `i` is the first place from `from` on at which the text holds `p`. */
  ghost predicate FirstFrom(s: string, p: string, from: nat, i: nat) {
    from <= i && OccursAt(s, p, i) && forall j: nat | from <= j < i :: !OccursAt(s, p, j)
  }

  /** The kind that starts at `kindStart` is not empty and ends at the first dashes, and its first end line starts at `endStart`. */
  ghost predicate Closes(s: string, kindStart: nat, kindEnd: nat, endStart: nat) {
    && kindStart < kindEnd <= |s| && FirstFrom(s, PemSuffix(), kindStart, kindEnd)
    && FirstFrom(s, PemEnd(s[kindStart..kindEnd]), kindEnd + |PemSuffix()|, endStart)
  }

  lemma FirstFromIsFound(s: string, p: string, from: nat, i: nat)
    requires from <= |s|
    ensures Find(s, p, from) == Some(i) <==> FirstFrom(s, p, from, i)
  {
    hide OccursAt, Find;
    FindIsFirst(s, p, from);
  }

  lemma ClosedEndsThere(s: string, kindStart: nat, kindEnd: nat, endStart: nat)
    requires kindStart <= |s| && Closes(s, kindStart, kindEnd, endStart)
    ensures var at := endStart + |PemEnd(s[kindStart..kindEnd])|;
            at <= |s| && PemBlockEnd(s, kindStart) == Some(PastLineBreak(s, at))
  {
    hide Find, PemEnd, PastLineBreak, FirstFrom;
    FirstFromIsFound(s, PemSuffix(), kindStart, kindEnd);
    SuffixFits(s, kindStart, kindEnd);
    FirstFromIsFound(s, PemEnd(s[kindStart..kindEnd]), kindEnd + |PemSuffix()|, endStart);
  }

  lemma SuffixFits(s: string, kindStart: nat, kindEnd: nat)
    requires FirstFrom(s, PemSuffix(), kindStart, kindEnd)
    ensures kindEnd + |PemSuffix()| <= |s|
  {
  }

  lemma PemBlockEndIsClosed(s: string, kindStart: nat) returns (kindEnd: nat, endStart: nat)
    requires kindStart <= |s| && PemBlockEnd(s, kindStart).Some?
    ensures Closes(s, kindStart, kindEnd, endStart)
  {
    hide Find, PemEnd, PemSuffix, PastLineBreak, FirstFrom;
    kindEnd := Find(s, PemSuffix(), kindStart).value;
    FirstFromIsFound(s, PemSuffix(), kindStart, kindEnd);
    endStart := Find(s, PemEnd(s[kindStart..kindEnd]), kindEnd + |PemSuffix()|).value;
    FirstFromIsFound(s, PemEnd(s[kindStart..kindEnd]), kindEnd + |PemSuffix()|, endStart);
  }

  lemma ClosesInside(s: string, kindStart: nat, kindEnd: nat, endStart: nat)
    requires Closes(s, kindStart, kindEnd, endStart)
    ensures kindStart <= kindEnd <= |s|
  {
  }

  /** A block ends exactly if there is such a kind and end line, and then behind the end line and a line break after it. */
  lemma PemBlockEndMeaning(s: string, kindStart: nat)
    requires kindStart <= |s|
    ensures PemBlockEnd(s, kindStart).Some? <==> exists kindEnd: nat, endStart: nat :: Closes(s, kindStart, kindEnd, endStart)
    ensures forall kindEnd: nat, endStart: nat | Closes(s, kindStart, kindEnd, endStart) ::
              var at := endStart + |PemEnd(s[kindStart..kindEnd])|;
              at <= |s| && PemBlockEnd(s, kindStart) == Some(PastLineBreak(s, at))
  {
    hide Closes, PemBlockEnd, Find, PemEnd, PastLineBreak;
    if PemBlockEnd(s, kindStart).Some? {
      var kindEnd, endStart := PemBlockEndIsClosed(s, kindStart);
    }
    forall kindEnd: nat, endStart: nat | Closes(s, kindStart, kindEnd, endStart)
      ensures kindStart <= kindEnd <= |s|
      ensures var at := endStart + |PemEnd(s[kindStart..kindEnd])|;
              at <= |s| && PemBlockEnd(s, kindStart) == Some(PastLineBreak(s, at))
    {
      ClosesInside(s, kindStart, kindEnd, endStart);
      ClosedEndsThere(s, kindStart, kindEnd, endStart);
    }
  }

  /** The text after the pass for PEM blocks. */
  function RedactPem(s: string): string
    decreases |s|
  {
    match Find(s, PemBegin(), 0)
    case None => s
    case Some(i) =>
      var kindStart := i + |PemBegin()|;
      match PemBlockEnd(s, kindStart)
      case None => s[..kindStart] + RedactPem(s[kindStart..])
      case Some(end) => (s[..i] + RedactedPem()) + RedactPem(s[end..])
  }

  lemma RedactPemStep(s: string)
    ensures |PemBegin()| == 11
    ensures Find(s, PemBegin(), 0).None? ==> RedactPem(s) == s
    ensures Find(s, PemBegin(), 0).Some? ==>
              var i := Find(s, PemBegin(), 0).value;
              var kindStart := i + |PemBegin()|;
              && (PemBlockEnd(s, kindStart).None? ==> RedactPem(s) == s[..kindStart] + RedactPem(s[kindStart..]))
              && (PemBlockEnd(s, kindStart).Some? ==>
                    RedactPem(s) == (s[..i] + RedactedPem()) + RedactPem(s[PemBlockEnd(s, kindStart).value..]))
  {
    hide Find, PemBlockEnd, RedactedPem, OccursAt;
  }

  /** Replacing PEM blocks exposes no marker, whatever stands before the text. */
  lemma {:induction false} RedactPemKeepsClean(a: string, s: string, m: string)
    requires GoodMarker(m) && Clean(a + s, m)
    ensures Clean(a + RedactPem(s), m)
    decreases |s|
  {
    hide *;
    RedactPemStep(s);
    LabelsAreLabels();
    var found := Find(s, PemBegin(), 0);
    if found.Some? {
      var i := found.value;
      var kindStart := i + |PemBegin()|;
      var block := PemBlockEnd(s, kindStart);
      if block.None? {
        SplitAfter(a, s, i, kindStart);
        RedactPemKeepsClean(a + s[..kindStart], s[kindStart..], m);
        Reassociate(a, s[..kindStart], "", RedactPem(s[kindStart..]));
      } else {
        var end := block.value;
        SplitAfter(a, s, i, end);
        LabelKeepsClean(a + s[..i], s[i..end], s[end..], RedactedPem(), m);
        RedactPemKeepsClean(a + s[..i] + RedactedPem(), s[end..], m);
        Reassociate(a, s[..i], RedactedPem(), RedactPem(s[end..]));
      }
    }
  }

  lemma LineBreakInRest(s: string, from: nat, at: nat)
    requires from <= at <= |s|
    ensures PastLineBreak(s, at) == from + PastLineBreak(s[from..], at - from)
  {
    hide OccursAt;
    Halves(s, from);
    OccursInRight(s[..from], s[from..], "\r\n", at);
    OccursInRight(s[..from], s[from..], "\n", at);
  }

  lemma PemBlockEndInRest(s: string, from: nat, kindStart: nat)
    requires from <= kindStart <= |s|
    ensures PemBlockEnd(s, kindStart) == Shift(PemBlockEnd(s[from..], kindStart - from), from)
  {
    hide Find, OccursAt, PemEnd, PastLineBreak;
    FindInRest(s, PemSuffix(), from, kindStart);
    Halves(s, from);
    var kindEnd := Find(s, PemSuffix(), kindStart);
    if kindEnd.Some? && kindEnd.value != kindStart {
      SliceOfRest(s, from, kindStart, kindEnd.value);
      SliceInRest(s, from, kindStart, kindEnd.value);
      var endMarker := PemEnd(s[kindStart..kindEnd.value]);
      FindInRest(s, endMarker, from, kindEnd.value + 5);
      var endStart := Find(s, endMarker, kindEnd.value + 5);
      if endStart.Some? {
        var end := endStart.value + |endMarker|;
        LineBreakInRest(s, from, end);
      }
    }
  }

  lemma SliceInRest(s: string, from: nat, start: nat, end: nat)
    requires from <= start <= end <= |s|
    ensures s[from..][start - from..end - from] == s[start..end]
  {
  }

  /** A turn of the PEM loop moves the offset on without changing what the pass will give. */
  lemma PemTurnKeepsResult(s: string, from: nat)
    requires from <= |s|
    ensures |PemBegin()| == 11
    ensures Find(s, PemBegin(), from).None? ==> s[..from] + RedactPem(s[from..]) == s
    ensures Find(s, PemBegin(), from).Some? ==>
              var begin := Find(s, PemBegin(), from).value;
              var kindStart := begin + |PemBegin()|;
              && (PemBlockEnd(s, kindStart).None? ==>
                    s[..from] + RedactPem(s[from..]) == s[..kindStart] + RedactPem(s[kindStart..]))
              && (PemBlockEnd(s, kindStart).Some? ==>
                    var t, next := s[..begin] + RedactedPem() + s[PemBlockEnd(s, kindStart).value..], begin + |RedactedPem()|;
                    s[..from] + RedactPem(s[from..]) == t[..next] + RedactPem(t[next..]))
  {
    hide RedactPem, RedactedPem, Find, OccursAt, PemBlockEnd, PemBegin, PemSuffix, PemEnd;
    RedactPemStep(s[from..]);
    FindInRest(s, PemBegin(), from, from);
    Halves(s, from);
    var found := Find(s, PemBegin(), from);
    if found.Some? {
      var kindStart := found.value + |PemBegin()|;
      PemBlockEndInRest(s, from, kindStart);
      SliceOfRest(s, from, found.value, kindStart);
      AfterReplacing(s, from, found.value, kindStart, RedactedPem(), RedactPem(s[kindStart..]));
      if PemBlockEnd(s, kindStart).Some? {
        var end := PemBlockEnd(s, kindStart).value;
        SliceOfRest(s, from, found.value, end);
        AfterReplacing(s, from, found.value, end, RedactedPem(), RedactPem(s[end..]));
      }
    }
  }

  /** Looks for the rest of a block: the kind up to the dashes, its end line, and a line break. */
  method FindPemBlockEnd(scrubbed: string, kindStart: nat) returns (replaceEnd: Option<nat>)
    requires kindStart <= |scrubbed|
    ensures replaceEnd == PemBlockEnd(scrubbed, kindStart)
  {
    hide Find, OccursAt, PemEnd, PemSuffix;
    var relKindEnd := Find(scrubbed, PemSuffix(), kindStart);
    if relKindEnd.None? {
      return None;
    }
    var kindEnd := relKindEnd.value;
    if kindEnd == kindStart {
      return None;
    }
    var kind := scrubbed[kindStart..kindEnd];
    var endMarker := PemEnd(kind);
    var relEnd := Find(scrubbed, endMarker, kindEnd + |PemSuffix()|);
    if relEnd.None? {
      return None;
    }
    var end := relEnd.value + |endMarker|;
    if OccursAt(scrubbed, "\r\n", end) {
      end := end + 2;
    } else if OccursAt(scrubbed, "\n", end) {
      end := end + 1;
    }
    return Some(end);
  }

  method ScrubPemBlocks(input: string) returns (scrubbed: string, modified: bool)
    ensures scrubbed == RedactPem(input)
    ensures !modified ==> scrubbed == input
  {
    hide *;
    LabelsAreLabels();
    Halves(input, 0);
    scrubbed, modified := input, false;
    var searchFrom: nat := 0;
    while true
      invariant searchFrom <= |scrubbed|
      invariant RedactPem(input) == scrubbed[..searchFrom] + RedactPem(scrubbed[searchFrom..])
      invariant !modified ==> scrubbed == input
      decreases |scrubbed| - searchFrom
    {
      PemTurnKeepsResult(scrubbed, searchFrom);
      var relBegin := Find(scrubbed, PemBegin(), searchFrom);
      if relBegin.None? {
        break;
      }
      var begin := relBegin.value;
      var kindStart := begin + |PemBegin()|;
      var replaceEnd := FindPemBlockEnd(scrubbed, kindStart);
      if replaceEnd.None? {
        searchFrom := kindStart;
        continue;
      }
      scrubbed := scrubbed[..begin] + RedactedPem() + scrubbed[replaceEnd.value..];
      modified := true;
      searchFrom := begin + |RedactedPem()|;
    }
  }

  // ---- all passes ----

  /** The patterns without the one for PEM blocks, which has a pass of its own. */
  function WithoutPem(patterns: seq<string>): seq<string> {
    if |patterns| == 0 then []
    else if patterns[0] == PemBegin() then WithoutPem(patterns[1..])
    else [patterns[0]] + WithoutPem(patterns[1..])
  }

  lemma {:induction false} WithoutPemMembers(patterns: seq<string>)
    ensures forall m :: m in WithoutPem(patterns) <==> m in patterns && m != PemBegin()
  {
    hide PemBegin;
    if |patterns| > 0 {
      WithoutPemMembers(patterns[1..]);
      assert patterns == [patterns[0]] + patterns[1..];
    }
  }

  /** The passes for a list of markers, in order. */
  function RedactEach(s: string, markers: seq<string>): string
    requires forall m | m in markers :: |m| > 0
    decreases |markers|
  {
    if |markers| == 0 then s else RedactEach(RedactMarker(s, markers[0]), markers[1..])
  }

  /** Every marker of the list ends clean, and a marker that was clean stays so. */
  lemma {:induction false} RedactEachIsClean(s: string, markers: seq<string>, m: string)
    requires forall p | p in markers :: |p| > 0 && GoodMarker(p)
    requires GoodMarker(m) && (m in markers || Clean(s, m))
    ensures Clean(RedactEach(s, markers), m)
    decreases |markers|
  {
    hide GoodMarker, Clean, RedactMarker;
    if |markers| > 0 {
      var p := markers[0];
      if p == m {
        RedactMarkerIsClean(s, m);
      } else if Clean(s, m) {
        NothingBefore(s);
        NothingBefore(RedactMarker(s, p));
        RedactMarkerKeepsClean("", s, p, m);
      }
      assert m in markers && p != m ==> m in markers[1..];
      RedactEachIsClean(RedactMarker(s, p), markers[1..], m);
    }
  }

  lemma NothingBefore(s: string)
    ensures "" + s == s
  {
  }

  /** Does any of the patterns occur at all? */
  predicate NeedsScrubbing(input: string) {
    exists p | p in PrefixPatterns() + MarkerPatterns() :: Contains(input, p)
  }

  lemma PatternsAreGood()
    ensures forall m | m in WithoutPem(PrefixPatterns()) + MarkerPatterns() :: |m| > 0 && GoodMarker(m)
    ensures forall m :: m in WithoutPem(PrefixPatterns()) <==> m in PrefixPatterns() && m != PemBegin()
  {
    hide *;
    PrefixPatternsAreGood();
    MarkerPatternsAreGood();
    WithoutPemMembers(PrefixPatterns());
  }

  /** The whole of `scrub_secret_patterns`. */
  function Scrubbed(input: string): string {
    if NeedsScrubbing(input) then
      PatternsAreGood();
      RedactPem(RedactEach(RedactEach(input, WithoutPem(PrefixPatterns())), MarkerPatterns()))
    else input
  }

  /** In scrubbed text no secret prefix and no secret marker is followed by token text. */
  lemma ScrubbedIsClean(input: string, m: string)
    requires m in PrefixPatterns() + MarkerPatterns() && m != PemBegin()
    ensures Clean(Scrubbed(input), m)
  {
    hide GoodMarker, Clean, RedactEach, RedactPem, PemBegin, PrefixPatterns, MarkerPatterns, Find, WithoutPem;
    PatternsAreGood();
    if NeedsScrubbing(input) {
      var once := RedactEach(input, WithoutPem(PrefixPatterns()));
      var twice := RedactEach(once, MarkerPatterns());
      if m in PrefixPatterns() {
        RedactEachIsClean(input, WithoutPem(PrefixPatterns()), m);
      }
      RedactEachIsClean(once, MarkerPatterns(), m);
      NothingBefore(twice);
      NothingBefore(RedactPem(twice));
      RedactPemKeepsClean("", twice, m);
    } else {
      assert !Contains(input, m);
      FindNone(input, m);
      AbsentIsClean(input, m);
    }
  }

  method ScrubPrefixes(input: string, prefixes: seq<string>) returns (scrubbed: string)
    requires forall m | m in WithoutPem(prefixes) :: |m| > 0
    ensures scrubbed == RedactEach(input, WithoutPem(prefixes))
  {
    hide PemBegin, RedactMarker;
    scrubbed := input;
    WithoutPemMembers(prefixes);
    for i := 0 to |prefixes|
      invariant forall m | m in WithoutPem(prefixes[i..]) :: |m| > 0
      invariant RedactEach(scrubbed, WithoutPem(prefixes[i..])) == RedactEach(input, WithoutPem(prefixes))
    {
      ghost var left := prefixes[i..];
      assert left[0] == prefixes[i] && left[1..] == prefixes[i + 1..];
      if prefixes[i] == PemBegin() {
        continue;
      }
      assert WithoutPem(left)[1..] == WithoutPem(left[1..]);
      assert prefixes[i] in WithoutPem(prefixes);
      var modified;
      scrubbed, modified := ScrubAfterMarker(scrubbed, prefixes[i]);
    }
  }

  method ScrubMarkers(input: string, markers: seq<string>) returns (scrubbed: string)
    requires forall m | m in markers :: |m| > 0
    ensures scrubbed == RedactEach(input, markers)
  {
    hide RedactMarker;
    scrubbed := input;
    for i := 0 to |markers|
      invariant RedactEach(scrubbed, markers[i..]) == RedactEach(input, markers)
    {
      assert markers[i..][1..] == markers[i + 1..];
      var modified;
      scrubbed, modified := ScrubAfterMarker(scrubbed, markers[i]);
    }
  }

  method ScrubSecretPatterns(input: string) returns (scrubbed: string)
    ensures scrubbed == Scrubbed(input)
  {
    hide GoodMarker, PemBegin, RedactMarker, PrefixPatterns, MarkerPatterns, RedactPem, Find, WithoutPem, RedactEach;
    PatternsAreGood();
    if !NeedsScrubbing(input) {
      return input;
    }
    scrubbed := ScrubPrefixes(input, PrefixPatterns());
    scrubbed := ScrubMarkers(scrubbed, MarkerPatterns());
    var modified;
    scrubbed, modified := ScrubPemBlocks(scrubbed);
  }
}
