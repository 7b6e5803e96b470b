/** Tool calls written into plain text between tags, for models without native tool use. */
module FallbackTools {
  import opened Wrappers
  import opened JsonValues
  import opened Whitespace
  import opened Text
  import opened LlmTypes

  datatype ExtractedToolCall = ExtractedToolCall(id: string, name: string, input: Json)

  function OpenTag(): string { "<tool_call>" }
  function CloseTag(): string { "</tool_call>" }

  lemma TagLengths()
    ensures |OpenTag()| == 11 && |CloseTag()| == 12
  {
  }

  function Digit(n: nat): char
    requires n < 10
  {
    ((n as int) + 48) as char
  }

  /** `{n}` in a format string. */
  function Decimal(n: nat): string {
    if n < 10 then [Digit(n)] else Decimal(n / 10) + [Digit(n % 10)]
  }

  function CallId(n: nat): string {
    "fallback_call_" + Decimal(n)
  }

  lemma {:induction false} DecimalIsInjective(m: nat, n: nat)
    requires Decimal(m) == Decimal(n)
    ensures m == n
  {
    var s, t := Decimal(m), Decimal(n);
    assert s[|s| - 1] == t[|t| - 1];
    if m >= 10 && n >= 10 {
      assert s[..|s| - 1] == Decimal(m / 10) && t[..|t| - 1] == Decimal(n / 10);
      DecimalIsInjective(m / 10, n / 10);
    } else if m >= 10 {
      DecimalIsNonempty(m / 10);
    } else if n >= 10 {
      DecimalIsNonempty(n / 10);
    }
  }

  lemma DecimalIsNonempty(n: nat)
    ensures |Decimal(n)| > 0
  {
  }

  lemma CallIdIsInjective(m: nat, n: nat)
    requires CallId(m) == CallId(n)
    ensures m == n
  {
    assert CallId(m)[14..] == Decimal(m) && CallId(n)[14..] == Decimal(n);
    DecimalIsInjective(m, n);
  }

  /** The number that the digits stand for. */
  function ValueOf(digits: string): int {
    if |digits| == 0 then 0 else ValueOf(digits[..|digits| - 1]) * 10 + (digits[|digits| - 1] as int - '0' as int)
  }

  /** A call's id is its number after a fixed prefix, in decimal digits without a leading zero. */
  lemma CallIdMeaning(n: nat)
    ensures var id := CallId(n);
            |id| > 14 && id[..14] == "fallback_call_" && ValueOf(id[14..]) == n
            && (forall c | c in id[14..] :: '0' <= c <= '9') && (id[14] == '0' ==> n == 0)
  {
    DecimalMeaning(n);
    assert CallId(n)[14..] == Decimal(n);
  }

  lemma {:induction false} DecimalMeaning(n: nat)
    ensures |Decimal(n)| > 0 && ValueOf(Decimal(n)) == n
    ensures (forall c | c in Decimal(n) :: '0' <= c <= '9') && (Decimal(n)[0] == '0' ==> n == 0)
  {
    if n < 10 {
      assert [Digit(n)][..0] == "";
    } else {
      DecimalMeaning(n / 10);
      assert Decimal(n)[..|Decimal(n)| - 1] == Decimal(n / 10);
    }
  }

  function ParseToolCall(blockContent: string, validNames: set<string>, callCounter: nat, parse: JsonParser): Option<ExtractedToolCall> {
    match parse(Trim(blockContent))
    case None => None
    case Some(parsed) =>
      match parsed.Get("name")
      case None => None
      case Some(name) =>
        if !name.Str? || name.text !in validNames then None
        else match parsed.Get("arguments")
             case None => None
             case Some(arguments) => Some(ExtractedToolCall(CallId(callCounter), name.text, arguments))
  }

  // ---- the text as plain segments and accepted blocks ----

  datatype Segment = Plain(text: string) | Call(content: string)

  predicate Accepts(content: string, validNames: set<string>, parse: JsonParser) {
    ParseToolCall(content, validNames, 0, parse).Some?
  }

  /** Left to right; a block that is not accepted, or not closed, belongs to the plain text. */
  function Segments(text: string, validNames: set<string>, parse: JsonParser): seq<Segment>
    decreases |text|
  {
    match Find(text, OpenTag(), 0)
    case None => [Plain(text)]
    case Some(open) =>
      match Find(text, CloseTag(), open + |OpenTag()|)
      case None => [Plain(text)]
      case Some(close) =>
        TagLengths();
        var content, end := text[open + |OpenTag()|..close], close + |CloseTag()|;
        if Accepts(content, validNames, parse)
        then [Plain(text[..open]), Call(content)] + Segments(text[end..], validNames, parse)
        else [Plain(text[..end])] + Segments(text[end..], validNames, parse)
  }

  ghost function Render(segments: seq<Segment>): string {
    if |segments| == 0 then ""
    else (match segments[0]
          case Plain(text) => text
          case Call(content) => OpenTag() + content + CloseTag())
         + Render(segments[1..])
  }

  ghost function PlainOf(segments: seq<Segment>): string {
    if |segments| == 0 then ""
    else if segments[0].Plain? then segments[0].text + PlainOf(segments[1..])
    else PlainOf(segments[1..])
  }

  ghost function CallsOf(segments: seq<Segment>, counter: nat, validNames: set<string>, parse: JsonParser): seq<ExtractedToolCall> {
    if |segments| == 0 then []
    else if segments[0].Plain? then CallsOf(segments[1..], counter, validNames, parse)
    else match ParseToolCall(segments[0].content, validNames, counter, parse)
         case Some(call) => [call] + CallsOf(segments[1..], counter + 1, validNames, parse)
         case None => CallsOf(segments[1..], counter, validNames, parse)
  }

  /** The number only goes into the id. */
  lemma AcceptanceIgnoresNumber(content: string, validNames: set<string>, counter: nat, parse: JsonParser)
    ensures Accepts(content, validNames, parse) <==> ParseToolCall(content, validNames, counter, parse).Some?
    ensures ParseToolCall(content, validNames, counter, parse).Some? ==>
              ParseToolCall(content, validNames, counter, parse).value.id == CallId(counter)
              && ParseToolCall(content, validNames, counter, parse).value.name in validNames
  {
  }

  /** A block gives the call with the document's name, a known one, and the document's arguments. */
  lemma ParsedCallMeaning(
    content: string, validNames: set<string>, counter: nat, parse: JsonParser, call: ExtractedToolCall)
    ensures ParseToolCall(content, validNames, counter, parse) == Some(call) <==>
            && var document := parse(Trim(content));
               && document.Some? && document.value.Object?
               && "name" in document.value.fields && document.value.fields["name"] == Str(call.name)
               && call.name in validNames
               && "arguments" in document.value.fields && document.value.fields["arguments"] == call.input
               && call.id == CallId(counter)
  {
    hide Trim, CallId;
  }

  lemma CallsOfFirst(segments: seq<Segment>, counter: nat, validNames: set<string>, parse: JsonParser)
    requires |segments| > 0
    ensures segments[0].Plain? ==>
              CallsOf(segments, counter, validNames, parse) == CallsOf(segments[1..], counter, validNames, parse)
    ensures segments[0].Call? && ParseToolCall(segments[0].content, validNames, counter, parse).Some? ==>
              CallsOf(segments, counter, validNames, parse)
              == [ParseToolCall(segments[0].content, validNames, counter, parse).value]
                 + CallsOf(segments[1..], counter + 1, validNames, parse)
  {
    hide ParseToolCall;
  }

  ghost predicate IsCallAt(
    call: ExtractedToolCall, segments: seq<Segment>, i: nat, number: nat, validNames: set<string>, parse: JsonParser)
  {
    i < |segments| && segments[i].Call? && ParseToolCall(segments[i].content, validNames, number, parse) == Some(call)
  }

  ghost predicate Rises(at: seq<nat>) {
    forall j, k | 0 <= j < k < |at| :: at[j] < at[k]
  }

  ghost predicate FindsAllCalls(at: seq<nat>, segments: seq<Segment>) {
    forall i | 0 <= i < |segments| && segments[i].Call? :: i in at
  }

  ghost predicate CallsStandAt(
    calls: seq<ExtractedToolCall>, at: seq<nat>, segments: seq<Segment>, counter: nat, validNames: set<string>, parse: JsonParser)
  {
    |at| == |calls| && forall k | 0 <= k < |at| :: IsCallAt(calls[k], segments, at[k], counter + k, validNames, parse)
  }

  /** The calls are those of the call segments at these places, which are all there are, in order. */
  ghost predicate AreCallsAt(
    calls: seq<ExtractedToolCall>, at: seq<nat>, segments: seq<Segment>, counter: nat, validNames: set<string>, parse: JsonParser)
  {
    CallsStandAt(calls, at, segments, counter, validNames, parse) && Rises(at) && FindsAllCalls(at, segments)
  }

  ghost function Moved(at: seq<nat>): (r: seq<nat>)
    ensures |r| == |at| && forall k | 0 <= k < |at| :: r[k] == at[k] + 1
  {
    seq(|at|, k requires 0 <= k < |at| => at[k] + 1)
  }

  lemma CallMoves(
    call: ExtractedToolCall, segments: seq<Segment>, i: nat, number: nat, validNames: set<string>, parse: JsonParser)
    requires |segments| > 0 && IsCallAt(call, segments[1..], i, number, validNames, parse)
    ensures IsCallAt(call, segments, i + 1, number, validNames, parse)
  {
    hide ParseToolCall;
  }

  lemma FindsAllMoved(at: seq<nat>, segments: seq<Segment>)
    requires |segments| > 0 && FindsAllCalls(at, segments[1..])
    ensures segments[0].Plain? ==> FindsAllCalls(Moved(at), segments)
    ensures FindsAllCalls([0] + Moved(at), segments)
  {
    hide Moved;
    var all := [0] + Moved(at);
    assert all[0] == 0;
    forall i | 0 < i < |segments| && segments[i].Call? ensures i in Moved(at) && i in all {
      assert segments[1..][i - 1].Call?;
      var k :| 0 <= k < |at| && at[k] == i - 1;
      assert Moved(at)[k] == i && all[k + 1] == i;
    }
  }

  lemma RisesMoved(at: seq<nat>)
    requires Rises(at)
    ensures Rises(Moved(at)) && Rises([0] + Moved(at))
  {
    hide Moved;
  }

  lemma CallsStandMoved(
    calls: seq<ExtractedToolCall>, at: seq<nat>, segments: seq<Segment>, counter: nat, validNames: set<string>, parse: JsonParser)
    requires |segments| > 0 && CallsStandAt(calls, at, segments[1..], counter, validNames, parse)
    ensures CallsStandAt(calls, Moved(at), segments, counter, validNames, parse)
  {
    hide IsCallAt, Moved;
    forall k | 0 <= k < |at| ensures IsCallAt(calls[k], segments, Moved(at)[k], counter + k, validNames, parse) {
      CallMoves(calls[k], segments, at[k], counter + k, validNames, parse);
    }
  }

  lemma CallStandsFirst(
    calls: seq<ExtractedToolCall>, at: seq<nat>, segments: seq<Segment>, counter: nat, validNames: set<string>, parse: JsonParser,
    call: ExtractedToolCall)
    requires CallsStandAt(calls, at, segments, counter + 1, validNames, parse)
    requires IsCallAt(call, segments, 0, counter, validNames, parse)
    ensures CallsStandAt([call] + calls, [0] + at, segments, counter, validNames, parse)
  {
    hide IsCallAt;
    var more, all := [call] + calls, [0] + at;
    forall k | 0 <= k < |all| ensures IsCallAt(more[k], segments, all[k], counter + k, validNames, parse) {
      if k > 0 {
        assert IsCallAt(calls[k - 1], segments, at[k - 1], counter + 1 + (k - 1), validNames, parse);
      }
    }
  }

  lemma PlainComesFirst(
    calls: seq<ExtractedToolCall>, at: seq<nat>, segments: seq<Segment>, counter: nat, validNames: set<string>, parse: JsonParser)
    requires |segments| > 0 && segments[0].Plain? && AreCallsAt(calls, at, segments[1..], counter, validNames, parse)
    ensures AreCallsAt(calls, Moved(at), segments, counter, validNames, parse)
  {
    hide CallsStandAt, Rises, FindsAllCalls, Moved;
    CallsStandMoved(calls, at, segments, counter, validNames, parse);
    RisesMoved(at);
    FindsAllMoved(at, segments);
  }

  lemma CallComesFirst(
    calls: seq<ExtractedToolCall>, at: seq<nat>, segments: seq<Segment>, counter: nat, validNames: set<string>, parse: JsonParser,
    call: ExtractedToolCall)
    requires |segments| > 0 && segments[0].Call? && AreCallsAt(calls, at, segments[1..], counter + 1, validNames, parse)
    requires ParseToolCall(segments[0].content, validNames, counter, parse) == Some(call)
    ensures AreCallsAt([call] + calls, [0] + Moved(at), segments, counter, validNames, parse)
  {
    hide CallsStandAt, Rises, FindsAllCalls, Moved, ParseToolCall;
    CallsStandMoved(calls, at, segments, counter + 1, validNames, parse);
    CallStandsFirst(calls, Moved(at), segments, counter, validNames, parse, call);
    RisesMoved(at);
    FindsAllMoved(at, segments);
  }

  /** The calls are those of the call segments, one each, in order, numbered from the counter on. */
  lemma {:induction false} CallsComeInOrder(segments: seq<Segment>, counter: nat, validNames: set<string>, parse: JsonParser)
    returns (at: seq<nat>)
    requires forall s | s in segments && s.Call? :: Accepts(s.content, validNames, parse)
    ensures AreCallsAt(CallsOf(segments, counter, validNames, parse), at, segments, counter, validNames, parse)
    decreases |segments|
  {
    hide ParseToolCall, Accepts, AreCallsAt, CallsOf, Moved;
    if |segments| == 0 {
      at := [];
      NoCallsAt(counter, validNames, parse);
    } else {
      var rest := segments[1..];
      assert segments[0] in segments;
      CallsOfFirst(segments, counter, validNames, parse);
      if segments[0].Plain? {
        var later := CallsComeInOrder(rest, counter, validNames, parse);
        PlainComesFirst(CallsOf(rest, counter, validNames, parse), later, segments, counter, validNames, parse);
        at := Moved(later);
      } else {
        AcceptanceIgnoresNumber(segments[0].content, validNames, counter, parse);
        var later := CallsComeInOrder(rest, counter + 1, validNames, parse);
        CallComesFirst(CallsOf(rest, counter + 1, validNames, parse), later, segments, counter, validNames, parse,
                       ParseToolCall(segments[0].content, validNames, counter, parse).value);
        at := [0] + Moved(later);
      }
    }
  }

  lemma NoCallsAt(counter: nat, validNames: set<string>, parse: JsonParser)
    ensures AreCallsAt(CallsOf([], counter, validNames, parse), [], [], counter, validNames, parse)
  {
  }

  lemma SegmentsStep(text: string, validNames: set<string>, parse: JsonParser)
    ensures var open := Find(text, OpenTag(), 0);
            && (open.None? ==> Segments(text, validNames, parse) == [Plain(text)])
            && (open.Some? ==>
                  var close := Find(text, CloseTag(), open.value + |OpenTag()|);
                  && (close.None? ==> Segments(text, validNames, parse) == [Plain(text)])
                  && (close.Some? ==>
                        var content, end := text[open.value + |OpenTag()|..close.value], close.value + |CloseTag()|;
                        Segments(text, validNames, parse)
                        == (if Accepts(content, validNames, parse) then [Plain(text[..open.value]), Call(content)] else [Plain(text[..end])])
                           + Segments(text[end..], validNames, parse)))
  {
    hide Find, Accepts, OpenTag, CloseTag;
  }

  /** Nothing of the text is lost or moved, and every call segment is an accepted block. */
  lemma {:induction false} SegmentsConserveText(text: string, validNames: set<string>, parse: JsonParser)
    ensures Render(Segments(text, validNames, parse)) == text
    ensures forall s | s in Segments(text, validNames, parse) && s.Call? :: Accepts(s.content, validNames, parse)
    decreases |text|
  {
    hide Find, Accepts, OpenTag, CloseTag, Segments, OccursAt;
    SegmentsStep(text, validNames, parse);
    TagLengths();
    var open := Find(text, OpenTag(), 0);
    if open.Some? {
      var contentStart := open.value + |OpenTag()|;
      var close := Find(text, CloseTag(), contentStart);
      if close.Some? {
        var end := close.value + |CloseTag()|;
        SegmentsConserveText(text[end..], validNames, parse);
        BlockIsTagged(text, open.value, close.value);
        Halves(text, end);
        var content := text[contentStart..close.value];
        var rest := Segments(text[end..], validNames, parse);
        RenderOne(text[..end], rest);
        RenderTwo(text[..open.value], content, rest);
      }
    }
    if Segments(text, validNames, parse) == [Plain(text)] {
      RenderOne(text, []);
      assert [Plain(text)] + [] == [Plain(text)] && text + "" == text;
    }
  }

  lemma RenderOne(t: string, rest: seq<Segment>)
    ensures Render([Plain(t)] + rest) == t + Render(rest)
  {
    hide OpenTag, CloseTag;
    assert ([Plain(t)] + rest)[1..] == rest;
  }

  lemma RenderTwo(t: string, content: string, rest: seq<Segment>)
    ensures Render([Plain(t), Call(content)] + rest) == t + (OpenTag() + content + CloseTag()) + Render(rest)
  {
    hide OpenTag, CloseTag;
    var all := [Plain(t), Call(content)] + rest;
    assert all[1..] == [Call(content)] + rest;
    assert all[1..][1..] == rest;
    Reassociate(t, OpenTag() + content + CloseTag(), "", Render(rest));
  }

  lemma BlockIsTagged(text: string, open: nat, close: nat)
    requires Find(text, OpenTag(), 0) == Some(open) && Find(text, CloseTag(), open + |OpenTag()|) == Some(close)
    ensures text[..close + |CloseTag()|]
            == text[..open] + (OpenTag() + text[open + |OpenTag()|..close] + CloseTag())
  {
    hide Find, OpenTag, CloseTag;
    FindIsFirst(text, OpenTag(), 0);
    FindIsFirst(text, CloseTag(), open + |OpenTag()|);
    FourSlices(text, open, open + |OpenTag()|, close, close + |CloseTag()|);
  }

  lemma FourSlices(s: string, a: nat, b: nat, c: nat, d: nat)
    requires a <= b <= c <= d <= |s|
    ensures s[..d] == s[..a] + (s[a..b] + s[b..c] + s[c..d])
  {
    assert s[a..c] == s[a..b] + s[b..c];
    assert s[a..d] == s[a..c] + s[c..d];
    assert s[..d] == s[..a] + s[a..d];
  }

  lemma {:induction false} PlainIsWhole(segments: seq<Segment>)
    requires forall s | s in segments :: s.Plain?
    ensures PlainOf(segments) == Render(segments)
  {
    if |segments| > 0 {
      PlainIsWhole(segments[1..]);
    }
  }

  /** The calls are the accepted blocks, in order, numbered from the counter on. */
  lemma {:induction false} CallsAreNumbered(segments: seq<Segment>, counter: nat, validNames: set<string>, parse: JsonParser)
    requires forall s | s in segments && s.Call? :: Accepts(s.content, validNames, parse)
    ensures var calls := CallsOf(segments, counter, validNames, parse);
            && (forall k | 0 <= k < |calls| :: calls[k].id == CallId(counter + k) && calls[k].name in validNames)
            && (calls == [] <==> forall s | s in segments :: s.Plain?)
  {
    hide CallId, ParseToolCall, Accepts;
    if |segments| > 0 {
      assert segments == [segments[0]] + segments[1..];
      if segments[0].Plain? {
        CallsAreNumbered(segments[1..], counter, validNames, parse);
      } else {
        AcceptanceIgnoresNumber(segments[0].content, validNames, counter, parse);
        CallsAreNumbered(segments[1..], counter + 1, validNames, parse);
        assert segments[0] in segments;
      }
    }
  }

  /** No calls: the remaining text is the whole text. Different calls have different ids. */
  lemma ExtractionConserves(text: string, validNames: set<string>, parse: JsonParser)
    ensures var segments := Segments(text, validNames, parse);
            var calls := CallsOf(segments, 1, validNames, parse);
            && Render(segments) == text
            && (calls == [] ==> PlainOf(segments) == text)
            && (forall i, j | 0 <= i < j < |calls| :: calls[i].id != calls[j].id)
            && forall k | 0 <= k < |calls| :: calls[k].id == CallId(k + 1) && calls[k].name in validNames
  {
    hide Segments, Render, PlainOf, CallsOf, CallId;
    var segments := Segments(text, validNames, parse);
    SegmentsConserveText(text, validNames, parse);
    CallsAreNumbered(segments, 1, validNames, parse);
    var calls := CallsOf(segments, 1, validNames, parse);
    if calls == [] {
      PlainIsWhole(segments);
    }
    forall i, j | 0 <= i < j < |calls| ensures calls[i].id != calls[j].id {
      if CallId(1 + i) == CallId(1 + j) {
        CallIdIsInjective(1 + i, 1 + j);
      }
    }
  }

  /** Text as a model is told to write it: plain text without `<` around accepted blocks that close where they end. */
  ghost predicate WellWritten(segments: seq<Segment>, validNames: set<string>, parse: JsonParser) {
    && |segments| > 0 && segments[0].Plain? && '<' !in segments[0].text
    && (|segments| > 1 ==>
          && segments[1].Call? && Accepts(segments[1].content, validNames, parse)
          && Find(segments[1].content + CloseTag(), CloseTag(), 0) == Some(|segments[1].content|)
          && WellWritten(segments[2..], validNames, parse))
  }

  lemma OpenTagFound(t: string, rest: string)
    requires '<' !in t
    ensures Find(t + OpenTag() + rest, OpenTag(), 0) == Some(|t|)
  {
    hide Find;
    var s := t + OpenTag() + rest;
    hide OccursAt;
    OccursInMiddle(t, OpenTag(), rest);
    forall j: nat | j < |t| ensures !OccursAt(s, OpenTag(), j) {
      assert s[j] == t[j] && OpenTag()[0] == '<';
      StartsWith(s, OpenTag(), j);
    }
    FoundAt(s, OpenTag(), |t|);
  }

  lemma NoOpenTag(t: string)
    requires '<' !in t
    ensures Find(t, OpenTag(), 0) == None
  {
    hide Find;
    assert OpenTag()[0] == '<';
    FindIsFirst(t, OpenTag(), 0);
  }

  lemma CloseTagFound(t: string, content: string, rest: string)
    requires Find(content + CloseTag(), CloseTag(), 0) == Some(|content|)
    ensures var s := t + (OpenTag() + content + CloseTag()) + rest;
            |t| + |OpenTag()| <= |s| && Find(s, CloseTag(), |t| + |OpenTag()|) == Some(|t| + |OpenTag()| + |content|)
  {
    hide Find, OpenTag, CloseTag;
    var s, from := t + (OpenTag() + content + CloseTag()) + rest, |t| + |OpenTag()|;
    assert s[from..] == content + CloseTag() + rest;
    FindInLonger(content + CloseTag(), rest, CloseTag(), |content|);
    FindInRest(s, CloseTag(), from, from);
  }

  lemma WrittenBlock(t: string, content: string, rest: string)
    ensures var s := t + (OpenTag() + content + CloseTag()) + rest;
            var from := |t| + |OpenTag()|;
            && s == t + OpenTag() + (content + CloseTag() + rest)
            && s[..|t|] == t && s[from..from + |content|] == content && s[from + |content| + |CloseTag()|..] == rest
  {
    hide OpenTag, CloseTag;
  }

  /** Reading undoes writing: such text comes apart into the very segments it was put together from. */
  lemma {:induction false} WrittenSegmentsAreRead(segments: seq<Segment>, validNames: set<string>, parse: JsonParser)
    requires WellWritten(segments, validNames, parse)
    ensures Segments(Render(segments), validNames, parse) == segments
  {
    hide Find, Accepts, OpenTag, CloseTag, Segments, Render;
    var t := segments[0].text;
    if |segments| == 1 {
      RenderOne(t, []);
      assert segments == [Plain(t)] + [] && t + "" == t;
      assert Render([]) == "" by { NothingRendered(); }
      NoOpenTag(t);
      SegmentsStep(t, validNames, parse);
    } else {
      var content, rest := segments[1].content, segments[2..];
      assert segments == [Plain(t), Call(content)] + rest;
      RenderTwo(t, content, rest);
      WrittenBlock(t, content, Render(rest));
      OpenTagFound(t, content + CloseTag() + Render(rest));
      CloseTagFound(t, content, Render(rest));
      SegmentsStep(Render(segments), validNames, parse);
      WrittenSegmentsAreRead(rest, validNames, parse);
    }
  }

  lemma NothingRendered()
    ensures Render([]) == ""
  {
  }

  // ---- the scanner ----

  /** What a turn of the scanner, standing at `from`, leaves for the rest of the text. */
  lemma ScanFrom(text: string, from: nat, counter: nat, validNames: set<string>, parse: JsonParser)
    requires from <= |text|
    ensures var segments := Segments(text[from..], validNames, parse);
            var open := Find(text, OpenTag(), from);
            && (open.None? ==>
                  PlainOf(segments) == text[from..] && CallsOf(segments, counter, validNames, parse) == [])
            && (open.Some? ==>
                  var close := Find(text, CloseTag(), open.value + |OpenTag()|);
                  && (close.None? ==>
                        PlainOf(segments) == text[from..] && CallsOf(segments, counter, validNames, parse) == [])
                  && (close.Some? ==>
                        var content, end := text[open.value + |OpenTag()|..close.value], close.value + |CloseTag()|;
                        var rest := Segments(text[end..], validNames, parse);
                        if Accepts(content, validNames, parse) then
                          && PlainOf(segments) == text[from..open.value] + PlainOf(rest)
                          && CallsOf(segments, counter, validNames, parse)
                             == [ParseToolCall(content, validNames, counter, parse).value] + CallsOf(rest, counter + 1, validNames, parse)
                        else
                          && PlainOf(segments) == text[from..end] + PlainOf(rest)
                          && CallsOf(segments, counter, validNames, parse) == CallsOf(rest, counter, validNames, parse)))
  {
    hide Find, OpenTag, CloseTag, Segments, PlainOf, CallsOf, ParseToolCall, Accepts, OccursAt;
    SegmentsStep(text[from..], validNames, parse);
    TagLengths();
    FindInRest(text, OpenTag(), from, from);
    OnePlain(text[from..], counter, validNames, parse);
    var open := Find(text, OpenTag(), from);
    if open.Some? {
      FindInRest(text, CloseTag(), from, open.value + |OpenTag()|);
      var close := Find(text, CloseTag(), open.value + |OpenTag()|);
      if close.Some? {
        var contentStart, end := open.value + |OpenTag()|, close.value + |CloseTag()|;
        SlicesOfRest(text, from, open.value, contentStart, close.value, end);
        var rest := Segments(text[end..], validNames, parse);
        FirstPlain(text[from..end], rest, counter, validNames, parse);
        FirstCall(text[from..open.value], text[contentStart..close.value], rest, counter, validNames, parse);
      }
    }
  }

  lemma OnePlain(t: string, counter: nat, validNames: set<string>, parse: JsonParser)
    ensures PlainOf([Plain(t)]) == t && CallsOf([Plain(t)], counter, validNames, parse) == []
  {
    assert t + "" == t;
  }

  lemma FirstPlain(t: string, rest: seq<Segment>, counter: nat, validNames: set<string>, parse: JsonParser)
    ensures PlainOf([Plain(t)] + rest) == t + PlainOf(rest)
    ensures CallsOf([Plain(t)] + rest, counter, validNames, parse) == CallsOf(rest, counter, validNames, parse)
  {
    assert ([Plain(t)] + rest)[1..] == rest;
  }

  lemma FirstCall(t: string, content: string, rest: seq<Segment>, counter: nat, validNames: set<string>, parse: JsonParser)
    ensures Accepts(content, validNames, parse) ==>
              && PlainOf([Plain(t), Call(content)] + rest) == t + PlainOf(rest)
              && ParseToolCall(content, validNames, counter, parse).Some?
              && CallsOf([Plain(t), Call(content)] + rest, counter, validNames, parse)
                 == [ParseToolCall(content, validNames, counter, parse).value] + CallsOf(rest, counter + 1, validNames, parse)
  {
    AcceptanceIgnoresNumber(content, validNames, counter, parse);
    hide ParseToolCall, Accepts;
    var all := [Plain(t), Call(content)] + rest;
    assert all[1..] == [Call(content)] + rest && all[1..][1..] == rest;
  }

  lemma SlicesOfRest(s: string, from: nat, a: nat, b: nat, c: nat, d: nat)
    requires from <= a <= b <= c <= d <= |s|
    ensures s[from..][..a - from] == s[from..a] && s[from..][b - from..c - from] == s[b..c]
    ensures s[from..][..d - from] == s[from..d] && s[from..][d - from..] == s[d..]
  {
  }

  method ExtractToolCalls(responseText: string, validNames: set<string>, parse: JsonParser)
    returns (remainingText: string, extractedCalls: seq<ExtractedToolCall>)
    ensures var segments := Segments(responseText, validNames, parse);
            && remainingText == PlainOf(segments)
            && extractedCalls == CallsOf(segments, 1, validNames, parse)
  {
    hide Find, OpenTag, CloseTag, Segments, PlainOf, CallsOf, ParseToolCall, Accepts, OccursAt;
    TagLengths();
    remainingText, extractedCalls := "", [];
    var searchStart: nat, callCounter: nat := 0, 1;
    ghost var all := Segments(responseText, validNames, parse);
    assert responseText[0..] == responseText;
    while true
      invariant searchStart <= |responseText| && callCounter >= 1
      invariant remainingText + PlainOf(Segments(responseText[searchStart..], validNames, parse)) == PlainOf(all)
      invariant extractedCalls + CallsOf(Segments(responseText[searchStart..], validNames, parse), callCounter, validNames, parse)
             == CallsOf(all, 1, validNames, parse)
      decreases |responseText| - searchStart
    {
      ScanFrom(responseText, searchStart, callCounter, validNames, parse);
      var openIndex := Find(responseText, OpenTag(), searchStart);
      if openIndex.None? {
        break;
      }
      ghost var before := remainingText;
      remainingText := remainingText + responseText[searchStart..openIndex.value];
      var contentStart := openIndex.value + |OpenTag()|;
      var closeIndex := Find(responseText, CloseTag(), contentStart);
      if closeIndex.None? {
        remainingText := remainingText + responseText[openIndex.value..];
        Pieces(before, responseText, searchStart, openIndex.value, |responseText|);
        return;
      }
      var blockContent := responseText[contentStart..closeIndex.value];
      var blockEnd := closeIndex.value + |CloseTag()|;
      var call := ParseToolCall(blockContent, validNames, callCounter, parse);
      AcceptanceIgnoresNumber(blockContent, validNames, callCounter, parse);
      ghost var later := Segments(responseText[blockEnd..], validNames, parse);
      if call.Some? {
        Associates(before, responseText[searchStart..openIndex.value], PlainOf(later));
        Associates(extractedCalls, [call.value], CallsOf(later, callCounter + 1, validNames, parse));
        extractedCalls := extractedCalls + [call.value];
        callCounter := callCounter + 1;
      } else {
        remainingText := remainingText + responseText[openIndex.value..blockEnd];
        Pieces(before, responseText, searchStart, openIndex.value, blockEnd);
        Associates(before, responseText[searchStart..blockEnd], PlainOf(later));
      }
      searchStart := blockEnd;
    }
    if searchStart < |responseText| {
      remainingText := remainingText + responseText[searchStart..];
    }
  }

  lemma Associates<T>(a: seq<T>, b: seq<T>, c: seq<T>)
    ensures (a + b) + c == a + (b + c)
  {
  }

  lemma Pieces(before: string, s: string, from: nat, mid: nat, end: nat)
    requires from <= mid <= end <= |s|
    ensures before + s[from..mid] + s[mid..end] == before + s[from..end]
    ensures end == |s| ==> s[mid..] == s[mid..end] && s[from..] == s[from..end]
  {
  }

  method BuildFallbackResponse(response: ProviderResponse, validNames: set<string>, parse: JsonParser) returns (r: ProviderResponse)
    ensures var segments := Segments(response.text, validNames, parse);
            var calls := CallsOf(segments, 1, validNames, parse);
            var text := PlainOf(segments);
            r == if calls == [] then response.(stopReason := Some(EndTurn))
                 else response.(
                   text := text,
                   contentBlocks := (if Blank(text) then [] else [TextBlock(text)])
                                    + seq(|calls|, k requires 0 <= k < |calls| => ToolUse(calls[k].id, calls[k].name, calls[k].input)),
                   stopReason := Some(ToolUseStop))
  {
    hide Segments, PlainOf, CallsOf, ParseToolCall, Blank;
    var remainingText, toolCalls := ExtractToolCalls(response.text, validNames, parse);
    if |toolCalls| == 0 {
      return response.(stopReason := Some(EndTurn));
    }
    var blocks: seq<ContentBlock> := [];
    if !Blank(remainingText) {
      blocks := [TextBlock(remainingText)];
    }
    ghost var lead := blocks;
    for k := 0 to |toolCalls|
      invariant blocks == lead + seq(k, j requires 0 <= j < k => ToolUse(toolCalls[j].id, toolCalls[j].name, toolCalls[j].input))
    {
      blocks := blocks + [ToolUse(toolCalls[k].id, toolCalls[k].name, toolCalls[k].input)];
    }
    r := response.(text := remainingText, contentBlocks := blocks, stopReason := Some(ToolUseStop));
  }
}
