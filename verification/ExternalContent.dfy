/** Framing untrusted text with markers that the text itself cannot contain. */
module ExternalContent {
  import opened Wrappers
  import opened Whitespace
  import opened Text
  import opened Cuts

  function OpenBody(): string { "external-content:" }
  function CloseBody(): string { "/external-content]]" }
  function CollisionOpenBody(): string { "external-content-collision:" }
  function CollisionCloseBody(): string { "/external-content-collision]]" }

  function Marker(body: string): string { "[[" + body }

  function OpenPrefix(): string { Marker(OpenBody()) }
  function CloseMarker(): string { Marker(CloseBody()) }
  function CollisionOpenPrefix(): string { Marker(CollisionOpenBody()) }
  function CollisionCloseMarker(): string { Marker(CollisionCloseBody()) }

  function SanitizeMarkerCollision(text: string): string {
    ReplaceAll(ReplaceAll(text, OpenPrefix(), CollisionOpenPrefix()), CloseMarker(), CollisionCloseMarker())
  }

  function SafeChar(c: char): char {
    if 'a' <= c <= 'z' || 'A' <= c <= 'Z' || '0' <= c <= '9' || c == '-' || c == '_' then LowerAscii(c) else '_'
  }

  function SafeChars(s: string): string {
    seq(|s|, i requires 0 <= i < |s| => SafeChar(s[i]))
  }

  function TrimUnderscores(s: string): string {
    if |s| > 0 && s[0] == '_' then TrimUnderscores(s[1..])
    else if |s| > 0 && s[|s| - 1] == '_' then TrimUnderscores(s[..|s| - 1])
    else s
  }

  function SafeSource(source: string): string {
    var compact := TrimUnderscores(SafeChars(Trim(source)));
    if compact == "" then "external" else compact
  }

  method SanitizeSource(source: string) returns (compact: string)
    ensures compact == SafeSource(source)
  {
    var out, trimmed := "", Trim(source);
    for i := 0 to |trimmed|
      invariant out == SafeChars(trimmed[..i])
    {
      var c := trimmed[i];
      if 'a' <= c <= 'z' || 'A' <= c <= 'Z' || '0' <= c <= '9' || c == '-' || c == '_' {
        out := out + [LowerAscii(c)];
      } else {
        out := out + ['_'];
      }
    }
    assert trimmed[..|trimmed|] == trimmed;
    compact := TrimUnderscores(out);
    if compact == "" {
      compact := "external";
    }
  }

  function WrapExternalContent(source: string, text: string): string {
    OpenPrefix() + SafeSource(source) + "]]" + "\n" + (SanitizeMarkerCollision(text) + "\n" + CloseMarker())
  }

  // ---- the source label ----

  predicate IsSafe(c: char) {
    'a' <= c <= 'z' || '0' <= c <= '9' || c == '-' || c == '_'
  }

  ghost predicate IsSafeLabel(s: string) {
    |s| > 0 && s[0] != '_' && s[|s| - 1] != '_' && forall c | c in s :: IsSafe(c)
  }

  lemma {:induction false} TrimUnderscoresMeaning(s: string)
    requires forall c | c in s :: IsSafe(c)
    ensures TrimUnderscores(s) == "" || IsSafeLabel(TrimUnderscores(s))
    ensures IsSafeLabel(s) ==> TrimUnderscores(s) == s
  {
    if |s| > 0 && s[0] == '_' {
      TrimUnderscoresMeaning(s[1..]);
    } else if |s| > 0 && s[|s| - 1] == '_' {
      TrimUnderscoresMeaning(s[..|s| - 1]);
    }
  }

  lemma SafeSourceIsSafe(source: string)
    ensures IsSafeLabel(SafeSource(source))
  {
    var chars := SafeChars(Trim(source));
    forall c | c in chars ensures IsSafe(c) {
      var i :| 0 <= i < |chars| && chars[i] == c;
    }
    TrimUnderscoresMeaning(chars);
  }

  lemma SafeLabelIsKept(s: string)
    requires IsSafeLabel(s)
    ensures SafeSource(s) == s
  {
    assert s[0] in s && s[|s| - 1] in s;
    assert TrimStart(s) == s && TrimEnd(s) == s;
    forall i | 0 <= i < |s| ensures SafeChar(s[i]) == s[i] {
      assert s[i] in s;
    }
    assert SafeChars(s) == s;
    TrimUnderscoresMeaning(s);
  }

  /** The label's character for a character of the source: letters and digits stay, capitals become small, the rest becomes `_`. */
  ghost predicate Labels(l: char, c: char) {
    if IsSafe(c) then l == c
    else if 'A' <= c <= 'Z' then 'a' <= l <= 'z' && SameLetter(c, l)
    else l == '_'
  }

  /** The label's characters stand for a stretch of the trimmed source, all around it standing for `_`. */
  ghost predicate IsLabelOf(tag: string, source: string, a: nat) {
    && a + |tag| <= |source|
    && (forall i | 0 <= i < |tag| :: Labels(tag[i], source[a + i]))
    && forall i | 0 <= i < |source| && !(a <= i < a + |tag|) :: Labels('_', source[i])
  }

  lemma SafeCharLabels(c: char)
    ensures Labels(SafeChar(c), c)
  {
  }

  lemma {:induction false} TrimUnderscoresMiddle(s: string) returns (a: nat)
    ensures a + |TrimUnderscores(s)| <= |s| && s[a..a + |TrimUnderscores(s)|] == TrimUnderscores(s)
    ensures forall i | 0 <= i < |s| && !(a <= i < a + |TrimUnderscores(s)|) :: s[i] == '_'
  {
    a := 0;
    if |s| > 0 && s[0] == '_' {
      a := TrimUnderscoresMiddle(s[1..]);
      forall i | 0 <= i < |s| && !(a + 1 <= i < a + 1 + |TrimUnderscores(s)|) ensures s[i] == '_' {
        if i > 0 {
          assert s[i] == s[1..][i - 1];
        }
      }
      a := a + 1;
    } else if |s| > 0 && s[|s| - 1] == '_' {
      a := TrimUnderscoresMiddle(s[..|s| - 1]);
      forall i | 0 <= i < |s| && !(a <= i < a + |TrimUnderscores(s)|) ensures s[i] == '_' {
        if i < |s| - 1 {
          assert s[i] == s[..|s| - 1][i];
        }
      }
    }
  }

  /** The label is what remains of the trimmed source, or a fixed word if nothing does. */
  lemma SafeSourceMeaning(source: string)
    ensures || (exists a: nat :: IsLabelOf(SafeSource(source), Trim(source), a))
            || (SafeSource(source) == "external" && forall c | c in Trim(source) :: Labels('_', c))
  {
    hide Labels, SafeChar, Trim;
    var t := Trim(source);
    var chars := SafeChars(t);
    var a := TrimUnderscoresMiddle(chars);
    forall i | 0 <= i < |t| ensures Labels(chars[i], t[i]) {
      SafeCharLabels(t[i]);
    }
    if TrimUnderscores(chars) != "" {
      assert forall i | 0 <= i < |SafeSource(source)| :: SafeSource(source)[i] == chars[a + i];
      assert IsLabelOf(SafeSource(source), t, a);
    }
  }

  // ---- the text ----

  /** `t` is `s` with all occurrences of `p` replaced by `put`, all other text in place. */
  ghost predicate IsReplaced(s: string, p: string, put: string, t: string) {
    exists cuts: seq<Cut>, tail: string :: s == Original(cuts, tail) && t == Edited(cuts, tail, put) && CutsAll(cuts, tail, p)
  }

  lemma ReplacedMeaning(s: string, p: string, put: string)
    requires |p| > 0
    ensures IsReplaced(s, p, put, ReplaceAll(s, p, put))
  {
    hide CutsAll, Original, Edited, ReplaceAll;
    var cuts, tail := ReplaceAllMeaning(s, p, put);
  }

  /** Sanitizing replaces the open prefix, then the close marker, and keeps all other text in place. */
  lemma SanitizeMeaning(text: string)
    ensures exists once: string :: IsReplaced(text, OpenPrefix(), CollisionOpenPrefix(), once)
              && IsReplaced(once, CloseMarker(), CollisionCloseMarker(), SanitizeMarkerCollision(text))
  {
    hide IsReplaced, ReplaceAll, OpenBody, CloseBody, CollisionOpenBody, CollisionCloseBody;
    var once := ReplaceAll(text, OpenPrefix(), CollisionOpenPrefix());
    ReplacedMeaning(text, OpenPrefix(), CollisionOpenPrefix());
    ReplacedMeaning(once, CloseMarker(), CollisionCloseMarker());
  }

  /** Cleaning a source label again changes nothing. */
  lemma SafeSourceIsIdempotent(source: string)
    ensures SafeSource(SafeSource(source)) == SafeSource(source)
  {
    SafeSourceIsSafe(source);
    SafeLabelIsKept(SafeSource(source));
  }

  // ---- the markers ----

  /** Two marker texts whose bodies hold no opening bracket and differ somewhere cannot overlap. */
  lemma MarkersBlock(body: string, other: string, j: nat)
    requires '[' !in body && '[' !in other && j < |body| && j < |other| && body[j] != other[j]
    ensures Blocks(Marker(body), Marker(other))
  {
    var p, r := Marker(body), Marker(other);
    forall d: int | -|p| < d < |r| ensures Mismatch(p, r, d) {
      if d < -1 {
        assert p[-d] == body[-d - 2] && p[-d] != r[-d + d];
      } else if d == -1 {
        assert p[2] == body[0] && p[2] != r[2 + d];
      } else if d == 0 {
        assert p[j + 2] == body[j] && r[j + 2] == other[j];
        assert p[j + 2] != r[j + 2 + d];
      } else if d == 1 {
        assert r[2] == other[0] && p[1] != r[1 + d];
      } else {
        assert r[d] == other[d - 2] && p[0] != r[0 + d];
      }
    }
  }

  lemma CollisionsBlock()
    ensures Blocks(OpenPrefix(), CollisionOpenPrefix())
    ensures Blocks(OpenPrefix(), CollisionCloseMarker())
    ensures Blocks(CloseMarker(), CollisionCloseMarker())
  {
    MarkersBlock(OpenBody(), CollisionOpenBody(), 16);
    MarkersBlock(OpenBody(), CollisionCloseBody(), 0);
    MarkersBlock(CloseBody(), CollisionCloseBody(), 17);
  }

  /** Sanitized text holds neither marker. */
  lemma SanitizedIsFree(text: string)
    ensures !Occurs(SanitizeMarkerCollision(text), OpenPrefix())
    ensures !Occurs(SanitizeMarkerCollision(text), CloseMarker())
  {
    hide OpenBody, CloseBody, CollisionOpenBody, CollisionCloseBody, ReplaceAll, Occurs, Blocks;
    CollisionsBlock();
    var once := ReplaceAll(text, OpenPrefix(), CollisionOpenPrefix());
    ReplaceAllRemoves(text, OpenPrefix(), CollisionOpenPrefix());
    assert "" + once == once;
    ReplaceAllKeepsAbsent("", once, CloseMarker(), CollisionCloseMarker(), OpenPrefix());
    assert "" + SanitizeMarkerCollision(text) == SanitizeMarkerCollision(text);
    ReplaceAllRemoves(once, CloseMarker(), CollisionCloseMarker());
  }

  /** Text is left alone exactly when it holds neither marker. */
  lemma SanitizeUnchanged(text: string)
    ensures SanitizeMarkerCollision(text) == text <==> !Occurs(text, OpenPrefix()) && !Occurs(text, CloseMarker())
  {
    hide OpenBody, CloseBody, CollisionOpenBody, CollisionCloseBody, ReplaceAll, Occurs;
    SanitizedIsFree(text);
    if !Occurs(text, OpenPrefix()) && !Occurs(text, CloseMarker()) {
      ReplaceAbsent(text, OpenPrefix(), CollisionOpenPrefix());
      ReplaceAbsent(text, CloseMarker(), CollisionCloseMarker());
    }
  }

  lemma SanitizeIsIdempotent(text: string)
    ensures SanitizeMarkerCollision(SanitizeMarkerCollision(text)) == SanitizeMarkerCollision(text)
  {
    hide *;
    SanitizedIsFree(text);
    SanitizeUnchanged(SanitizeMarkerCollision(text));
  }

  // ---- the frame ----

  /** A text without line breaks occurs on one side of a line break or on the other. */
  lemma OccursInLine(a: string, b: string, p: string, i: nat)
    requires |p| > 0 && '\n' !in p
    ensures OccursAt(a + "\n" + b, p, i) <==>
            (i + |p| <= |a| && OccursAt(a, p, i)) || (i >= |a| + 1 && OccursAt(b, p, i - |a| - 1))
  {
    assert Blocks(p, "\n") by {
      forall d: int | -|p| < d < 1 ensures Mismatch(p, "\n", d) {
        assert p[-d] in p && p[-d] != "\n"[-d + d];
      }
    }
    if i + |p| <= |a| {
      Reassociate(a, "\n", "", b);
      assert a + "\n" + b == a + ("\n" + b);
      OccursInLeft(a, "\n" + b, p, i);
    } else if i >= |a| + 1 {
      OccursInRight(a + "\n", b, p, i);
    } else {
      OverlapFails(a, "\n", b, p, i);
    }
  }

  /** The header line holds the open marker only at its start, and no close marker. */
  lemma HeaderMarkers(tag: string, i: nat)
    requires IsSafeLabel(tag)
    ensures OccursAt(OpenPrefix() + tag + "]]", OpenPrefix(), i) <==> i == 0
    ensures !OccursAt(OpenPrefix() + tag + "]]", CloseMarker(), i)
  {
    var h := OpenPrefix() + tag + "]]";
    forall k | 2 <= k < |h| ensures h[k] != '[' && h[k] != '/' {
      if |OpenPrefix()| <= k < |h| - 2 {
        assert h[k] == tag[k - |OpenPrefix()|] && h[k] in tag;
      }
    }
    if i + |CloseMarker()| <= |h| {
      assert h[i..i + |CloseMarker()|][2] == h[i + 2];
      assert CloseMarker()[2] == '/';
    }
    if 0 < i && i + |OpenPrefix()| <= |h| {
      assert h[i..i + |OpenPrefix()|][1] == h[i + 1];
    }
    if i == 0 {
      assert h[0..|OpenPrefix()|] == OpenPrefix();
    }
  }

  lemma CloseHasNoOpen(i: nat)
    ensures !OccursAt(CloseMarker(), OpenPrefix(), i)
    ensures OccursAt(CloseMarker(), CloseMarker(), i) <==> i == 0
  {
    var c := CloseMarker();
    if i + |OpenPrefix()| <= |c| {
      var window := c[i..i + |OpenPrefix()|];
      assert window[0] == c[i] && window[1] == c[i + 1] && window[2] == c[i + 2];
    }
    assert c[0..|c|] == c;
  }

  lemma NoLineBreaks()
    ensures '\n' !in OpenPrefix() && '\n' !in CloseMarker() && |OpenPrefix()| == 19 && |CloseMarker()| == 21
  {
  }

  lemma FrameAt(header: string, inner: string, i: nat)
    requires !Occurs(inner, OpenPrefix()) && !Occurs(inner, CloseMarker())
    requires forall k: nat :: OccursAt(header, OpenPrefix(), k) <==> k == 0
    requires forall k: nat :: !OccursAt(header, CloseMarker(), k)
    requires |header| >= |OpenPrefix()|
    ensures var w := header + "\n" + (inner + "\n" + CloseMarker());
            && (OccursAt(w, OpenPrefix(), i) <==> i == 0)
            && (OccursAt(w, CloseMarker(), i) <==> i == |w| - |CloseMarker()|)
  {
    hide OpenPrefix, CloseMarker, OccursAt;
    NoLineBreaks();
    var rest := inner + "\n" + CloseMarker();
    OccursInLine(header, rest, OpenPrefix(), i);
    OccursInLine(header, rest, CloseMarker(), i);
    if i >= |header| + 1 {
      var j := i - |header| - 1;
      OccursInLine(inner, CloseMarker(), OpenPrefix(), j);
      OccursInLine(inner, CloseMarker(), CloseMarker(), j);
      if j >= |inner| + 1 {
        CloseHasNoOpen(j - |inner| - 1);
      }
    }
  }

  /** Wrapped content holds the open marker exactly once, at the front, and the close marker exactly once, at the end. */
  lemma WrapHasOneFrame(source: string, text: string)
    ensures var w := WrapExternalContent(source, text);
            && (forall i: nat :: OccursAt(w, OpenPrefix(), i) <==> i == 0)
            && forall i: nat :: OccursAt(w, CloseMarker(), i) <==> i == |w| - |CloseMarker()|
  {
    hide OpenPrefix, CloseMarker, OccursAt, SafeSource, SanitizeMarkerCollision, IsSafeLabel;
    var w, header, inner := WrapExternalContent(source, text), OpenPrefix() + SafeSource(source) + "]]", SanitizeMarkerCollision(text);
    SafeSourceIsSafe(source);
    SanitizedIsFree(text);
    forall i: nat
      ensures OccursAt(header, OpenPrefix(), i) <==> i == 0
      ensures !OccursAt(header, CloseMarker(), i)
    {
      HeaderMarkers(SafeSource(source), i);
    }
    forall i: nat
      ensures OccursAt(w, OpenPrefix(), i) <==> i == 0
      ensures OccursAt(w, CloseMarker(), i) <==> i == |w| - |CloseMarker()|
    {
      FrameAt(header, inner, i);
    }
  }

  /** Takes the frame apart: the label in the header line, and what stands between the header and the closing line. */
  function Unwrap(w: string): Option<(string, string)> {
    match Find(w, "]]\n", 0)
    case None => None
    case Some(k) =>
      if 19 <= k && k + 3 <= |w| - 22 then Some((w[19..k], w[k + 3..|w| - 22])) else None
  }

  lemma HeaderEnd(tag: string, rest: string)
    requires IsSafeLabel(tag)
    ensures Find(OpenPrefix() + tag + "]]" + "\n" + rest, "]]\n", 0) == Some(19 + |tag|)
  {
    hide Find;
    var w, k := OpenPrefix() + tag + "]]" + "\n" + rest, 19 + |tag|;
    assert |OpenPrefix()| == 19;
    FindIsFirst(w, "]]\n", 0);
    assert w[k..k + 3] == "]]\n";
    assert OccursAt(w, "]]\n", k);
    forall j: nat | j < k ensures !OccursAt(w, "]]\n", j) {
      if j < 19 {
        assert w[j] == OpenPrefix()[j];
      } else {
        assert w[j] == tag[j - 19] && w[j] in tag;
      }
      assert w[j..j + 3][0] == w[j];
    }
  }

  /** Stripping the frame gives back the cleaned label and the sanitized text. */
  lemma UnwrapGivesBack(source: string, text: string)
    ensures Unwrap(WrapExternalContent(source, text)) == Some((SafeSource(source), SanitizeMarkerCollision(text)))
  {
    hide Find, OpenPrefix, CloseMarker, SafeSource, SanitizeMarkerCollision, IsSafeLabel;
    var tag, inner, w := SafeSource(source), SanitizeMarkerCollision(text), WrapExternalContent(source, text);
    SafeSourceIsSafe(source);
    NoLineBreaks();
    HeaderEnd(tag, inner + "\n" + CloseMarker());
    PartsOfFrame(OpenPrefix(), tag, inner, CloseMarker());
  }

  lemma PartsOfFrame(open: string, tag: string, inner: string, close: string)
    requires |open| == 19 && |close| == 21
    ensures var w := open + tag + "]]" + "\n" + (inner + "\n" + close);
            && |w| == 19 + |tag| + 3 + |inner| + 22
            && w[19..19 + |tag|] == tag && w[19 + |tag| + 3..|w| - 22] == inner
  {
  }
}
