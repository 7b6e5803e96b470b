/** Collecting a stream of events into one response, and replaying a response as events. */
module Streaming {
  import opened Wrappers
  import opened JsonValues
  import opened LlmTypes

  datatype StreamEvent =
    | ResponseStart(model: Option<string>)
    | TextDelta(text: string)
    | ToolCallDelta(index: nat, id: Option<string>, name: Option<string>, inputJsonDelta: string)
    | ToolCallComplete(callId: string, callName: string, input: Json)
    | Done(stopReason: Option<StopReason>, inputTokens: Option<nat>, outputTokens: Option<nat>)

  datatype ToolCallBuilder = ToolCallBuilder(id: string, name: string, inputJson: string)

  // ---- what a stream says, each part on its own ----

  ghost function TextOf(es: seq<StreamEvent>): string {
    if |es| == 0 then ""
    else
      var e := es[|es| - 1];
      if e.TextDelta? then TextOf(es[..|es| - 1]) + e.text else TextOf(es[..|es| - 1])
  }

  /** The deltas for one index. */
  ghost function DeltasOf(es: seq<StreamEvent>, index: nat): seq<StreamEvent> {
    if |es| == 0 then []
    else
      var e := es[|es| - 1];
      if e.ToolCallDelta? && e.index == index then DeltasOf(es[..|es| - 1], index) + [e] else DeltasOf(es[..|es| - 1], index)
  }

  /** What a run of deltas adds up to: the last id, the last name, and all the JSON text. */
  ghost function Build(deltas: seq<StreamEvent>): ToolCallBuilder {
    if |deltas| == 0 then ToolCallBuilder("", "", "")
    else
      var b, e := Build(deltas[..|deltas| - 1]), deltas[|deltas| - 1];
      if e.ToolCallDelta? then AddDelta(b, e) else b
  }

  function AddDelta(b: ToolCallBuilder, e: StreamEvent): ToolCallBuilder
    requires e.ToolCallDelta?
  {
    ToolCallBuilder(
      if e.id.Some? then e.id.value else b.id,
      if e.name.Some? then e.name.value else b.name,
      b.inputJson + e.inputJsonDelta)
  }

  ghost function BuilderOf(es: seq<StreamEvent>, index: nat): ToolCallBuilder {
    Build(DeltasOf(es, index))
  }

  ghost function CompletedOf(es: seq<StreamEvent>): seq<ContentBlock> {
    if |es| == 0 then []
    else
      var e := es[|es| - 1];
      if e.ToolCallComplete? then CompletedOf(es[..|es| - 1]) + [ToolUse(e.callId, e.callName, e.input)]
      else CompletedOf(es[..|es| - 1])
  }

  ghost function LastStart(es: seq<StreamEvent>): Option<string> {
    if |es| == 0 then None
    else if es[|es| - 1].ResponseStart? then es[|es| - 1].model
    else LastStart(es[..|es| - 1])
  }

  ghost function LastDone(es: seq<StreamEvent>): StreamEvent {
    if |es| == 0 then Done(None, None, None)
    else if es[|es| - 1].Done? then es[|es| - 1]
    else LastDone(es[..|es| - 1])
  }

  /** One more than the largest index that has a delta. */
  ghost function BuilderCount(es: seq<StreamEvent>): nat {
    if |es| == 0 then 0
    else
      var n, e := BuilderCount(es[..|es| - 1]), es[|es| - 1];
      if e.ToolCallDelta? && e.index >= n then e.index + 1 else n
  }

  /** The tool call that a builder gives at the end: none without id or name, or when its JSON does not parse. */
  function Assemble(b: ToolCallBuilder, parse: JsonParser): seq<ContentBlock> {
    if b.id == "" || b.name == "" then []
    else match parse(b.inputJson)
         case Some(input) => [ToolUse(b.id, b.name, input)]
         case None => []
  }

  ghost function AssembledUpTo(es: seq<StreamEvent>, n: nat, parse: JsonParser): seq<ContentBlock> {
    if n == 0 then [] else AssembledUpTo(es, n - 1, parse) + Assemble(BuilderOf(es, n - 1), parse)
  }

  ghost function ResponseOf(es: seq<StreamEvent>, parse: JsonParser): ProviderResponse {
    var done := LastDone(es);
    var blocks := CompletedOf(es) + AssembledUpTo(es, BuilderCount(es), parse);
    var text := TextOf(es);
    ProviderResponse(
      text,
      if done.Done? then done.inputTokens else None,
      if done.Done? then done.outputTokens else None,
      LastStart(es),
      if text != "" then [TextBlock(text)] + blocks else blocks,
      if done.Done? then done.stopReason else None)
  }

  // ---- the collector ----

  class StreamCollector {
    var text: string
    var contentBlocks: seq<ContentBlock>
    var toolCallBuilders: seq<ToolCallBuilder>
    var stopReason: Option<StopReason>
    var inputTokens: Option<nat>
    var outputTokens: Option<nat>
    var model: Option<string>
    /** The events fed so far. */
    ghost var fed: seq<StreamEvent>

    ghost predicate Valid()
      reads this
    {
      && text == TextOf(fed)
      && contentBlocks == CompletedOf(fed)
      && |toolCallBuilders| == BuilderCount(fed)
      && (forall i | 0 <= i < |toolCallBuilders| :: toolCallBuilders[i] == BuilderOf(fed, i))
      && LastDone(fed) == Done(stopReason, inputTokens, outputTokens)
      && model == LastStart(fed)
    }

    constructor ()
      ensures Valid() && fed == []
    {
      text, contentBlocks, toolCallBuilders := "", [], [];
      stopReason, inputTokens, outputTokens, model := None, None, None, None;
      fed := [];
    }

    method Feed(event: StreamEvent)
      requires Valid()
      modifies this
      ensures Valid() && fed == old(fed) + [event]
    {
      hide TextOf, CompletedOf, LastStart, LastDone, BuilderCount, BuilderOf;
      ghost var before, after := fed, fed + [event];
      AfterOne(before, event);
      match event {
        case ResponseStart(m) =>
          model := m;
        case TextDelta(t) =>
          text := text + t;
        case ToolCallDelta(index, id, name, delta) =>
          NoDeltasBeyond(before);
          while |toolCallBuilders| <= index
            invariant |toolCallBuilders| >= BuilderCount(before)
            invariant |toolCallBuilders| <= index + 1 || |toolCallBuilders| == BuilderCount(before)
            invariant forall i | 0 <= i < |toolCallBuilders| :: toolCallBuilders[i] == BuilderOf(before, i)
            invariant text == old(text) && contentBlocks == old(contentBlocks) && model == old(model)
            invariant stopReason == old(stopReason) && inputTokens == old(inputTokens) && outputTokens == old(outputTokens)
          {
            toolCallBuilders := toolCallBuilders + [ToolCallBuilder("", "", "")];
          }
          var builder := toolCallBuilders[index];
          if id.Some? {
            builder := builder.(id := id.value);
          }
          if name.Some? {
            builder := builder.(name := name.value);
          }
          builder := builder.(inputJson := builder.inputJson + delta);
          toolCallBuilders := toolCallBuilders[index := builder];
        case ToolCallComplete(id, name, input) =>
          contentBlocks := contentBlocks + [ToolUse(id, name, input)];
        case Done(reason, inTokens, outTokens) =>
          stopReason, inputTokens, outputTokens := reason, inTokens, outTokens;
      }
      fed := after;
    }

    method Finish(parse: JsonParser) returns (r: ProviderResponse)
      requires Valid()
      ensures r == ResponseOf(fed, parse)
    {
      var blocks := contentBlocks;
      for i := 0 to |toolCallBuilders|
        invariant blocks == CompletedOf(fed) + AssembledUpTo(fed, i, parse)
      {
        var builder := toolCallBuilders[i];
        assert builder == BuilderOf(fed, i);
        if builder.id == "" || builder.name == "" {
          continue;
        }
        match parse(builder.inputJson) {
          case Some(input) => blocks := blocks + [ToolUse(builder.id, builder.name, input)];
          case None =>
        }
      }
      if text != "" {
        blocks := [TextBlock(text)] + blocks;
      }
      r := ProviderResponse(text, inputTokens, outputTokens, model, blocks, stopReason);
    }
  }

  lemma BuildersAfter(es: seq<StreamEvent>, e: StreamEvent)
    ensures forall i: nat :: BuilderOf(es + [e], i) ==
              if e.ToolCallDelta? && e.index == i then AddDelta(BuilderOf(es, i), e) else BuilderOf(es, i)
  {
    assert (es + [e])[..|es|] == es;
    forall i: nat
      ensures BuilderOf(es + [e], i) ==
              if e.ToolCallDelta? && e.index == i then AddDelta(BuilderOf(es, i), e) else BuilderOf(es, i)
    {
      assert (DeltasOf(es, i) + [e])[..|DeltasOf(es, i)|] == DeltasOf(es, i);
    }
  }

  lemma {:induction false} NoDeltasBeyond(es: seq<StreamEvent>)
    ensures forall i: nat | i >= BuilderCount(es) :: BuilderOf(es, i) == ToolCallBuilder("", "", "")
  {
    if |es| > 0 {
      var init, e := es[..|es| - 1], es[|es| - 1];
      NoDeltasBeyond(init);
      BuildersAfter(init, e);
      assert es == init + [e];
    }
  }

  // ---- what a stream's cutting and interleaving do not change ----

  /** The two streams say the same: text, calls per index, completed calls, last start, last done. */
  ghost predicate SaySame(a: seq<StreamEvent>, b: seq<StreamEvent>) {
    && TextOf(a) == TextOf(b)
    && (forall i: nat :: BuilderOf(a, i) == BuilderOf(b, i))
    && CompletedOf(a) == CompletedOf(b)
    && LastStart(a) == LastStart(b)
    && LastDone(a) == LastDone(b)
  }

  /** Indices that no delta names give nothing, so it does not matter how far one counts. */
  lemma {:induction false} CountingFurther(es: seq<StreamEvent>, n: nat, parse: JsonParser)
    requires n >= BuilderCount(es)
    ensures AssembledUpTo(es, n, parse) == AssembledUpTo(es, BuilderCount(es), parse)
  {
    hide BuilderOf, BuilderCount;
    if n > BuilderCount(es) {
      NoDeltasBeyond(es);
      CountingFurther(es, n - 1, parse);
    }
  }

  lemma {:induction false} SameAssembled(a: seq<StreamEvent>, b: seq<StreamEvent>, n: nat, parse: JsonParser)
    requires SaySame(a, b)
    ensures AssembledUpTo(a, n, parse) == AssembledUpTo(b, n, parse)
  {
    if n > 0 {
      SameAssembled(a, b, n - 1, parse);
    }
  }

  /** Streams that say the same give the same response. */
  lemma SameResponse(a: seq<StreamEvent>, b: seq<StreamEvent>, parse: JsonParser)
    requires SaySame(a, b)
    ensures ResponseOf(a, parse) == ResponseOf(b, parse)
  {
    var n := if BuilderCount(a) >= BuilderCount(b) then BuilderCount(a) else BuilderCount(b);
    CountingFurther(a, n, parse);
    CountingFurther(b, n, parse);
    SameAssembled(a, b, n, parse);
  }

  /** What follows does not tell streams apart that say the same so far. */
  lemma {:induction false} SaySameThen(a: seq<StreamEvent>, b: seq<StreamEvent>, rest: seq<StreamEvent>)
    requires SaySame(a, b)
    ensures SaySame(a + rest, b + rest)
    decreases |rest|
  {
    if |rest| == 0 {
      assert a + rest == a && b + rest == b;
    } else {
      var n := |rest| - 1;
      SaySameThen(a, b, rest[..n]);
      assert a + rest == (a + rest[..n]) + [rest[n]] && b + rest == (b + rest[..n]) + [rest[n]];
      SaySameThenOne(a + rest[..n], b + rest[..n], rest[n]);
    }
  }

  lemma SaySameThenOne(a: seq<StreamEvent>, b: seq<StreamEvent>, e: StreamEvent)
    requires SaySame(a, b)
    ensures SaySame(a + [e], b + [e])
  {
    hide BuilderOf;
    assert (a + [e])[..|a|] == a && (b + [e])[..|b|] == b;
    BuildersAfter(a, e);
    BuildersAfter(b, e);
  }

  lemma AfterOne(es: seq<StreamEvent>, e: StreamEvent)
    ensures TextOf(es + [e]) == if e.TextDelta? then TextOf(es) + e.text else TextOf(es)
    ensures CompletedOf(es + [e]) ==
            if e.ToolCallComplete? then CompletedOf(es) + [ToolUse(e.callId, e.callName, e.input)] else CompletedOf(es)
    ensures LastStart(es + [e]) == if e.ResponseStart? then e.model else LastStart(es)
    ensures LastDone(es + [e]) == if e.Done? then e else LastDone(es)
    ensures BuilderCount(es + [e]) ==
            if e.ToolCallDelta? && e.index >= BuilderCount(es) then e.index + 1 else BuilderCount(es)
    ensures forall i: nat :: BuilderOf(es + [e], i) ==
              if e.ToolCallDelta? && e.index == i then AddDelta(BuilderOf(es, i), e) else BuilderOf(es, i)
  {
    assert (es + [e])[..|es|] == es;
    BuildersAfter(es, e);
  }

  /** Cutting a piece of text in two changes nothing. */
  lemma TextFragments(es: seq<StreamEvent>, x: string, y: string, rest: seq<StreamEvent>, parse: JsonParser)
    ensures ResponseOf(es + [TextDelta(x + y)] + rest, parse) == ResponseOf(es + [TextDelta(x)] + [TextDelta(y)] + rest, parse)
  {
    hide BuilderOf, TextOf, CompletedOf, LastStart, LastDone, ResponseOf;
    AfterOne(es, TextDelta(x + y));
    AfterOne(es, TextDelta(x));
    AfterOne(es + [TextDelta(x)], TextDelta(y));
    assert TextOf(es) + (x + y) == TextOf(es) + x + y;
    SaySameThen(es + [TextDelta(x + y)], es + [TextDelta(x)] + [TextDelta(y)], rest);
    SameResponse(es + [TextDelta(x + y)] + rest, es + [TextDelta(x)] + [TextDelta(y)] + rest, parse);
  }

  /** Cutting the JSON of a tool call in two changes nothing. */
  lemma DeltaFragments(
    es: seq<StreamEvent>, index: nat, id: Option<string>, name: Option<string>, x: string, y: string,
    rest: seq<StreamEvent>, parse: JsonParser)
    ensures var whole, first, second := ToolCallDelta(index, id, name, x + y), ToolCallDelta(index, id, name, x), ToolCallDelta(index, None, None, y);
            ResponseOf(es + [whole] + rest, parse) == ResponseOf(es + [first] + [second] + rest, parse)
  {
    hide BuilderOf, TextOf, CompletedOf, LastStart, LastDone, ResponseOf;
    var whole, first, second := ToolCallDelta(index, id, name, x + y), ToolCallDelta(index, id, name, x), ToolCallDelta(index, None, None, y);
    AfterOne(es, whole);
    AfterOne(es, first);
    AfterOne(es + [first], second);
    assert BuilderOf(es, index).inputJson + (x + y) == BuilderOf(es, index).inputJson + x + y;
    SaySameThen(es + [whole], es + [first] + [second], rest);
    SameResponse(es + [whole] + rest, es + [first] + [second] + rest, parse);
  }

  /** Two events that are not of one kind, or are deltas for different indices. */
  ghost predicate Independent(e: StreamEvent, f: StreamEvent) {
    || (e.ToolCallDelta? && (!f.ToolCallDelta? || f.index != e.index))
    || (e.TextDelta? && !f.TextDelta?)
    || (e.ToolCallComplete? && !f.ToolCallComplete?)
    || (e.ResponseStart? && !f.ResponseStart?)
    || (e.Done? && !f.Done?)
  }

  /** Independent events may come in either order. */
  lemma InterleavingIsIrrelevant(es: seq<StreamEvent>, e: StreamEvent, f: StreamEvent, rest: seq<StreamEvent>, parse: JsonParser)
    requires Independent(e, f)
    ensures ResponseOf(es + [e] + [f] + rest, parse) == ResponseOf(es + [f] + [e] + rest, parse)
  {
    hide BuilderOf, TextOf, CompletedOf, LastStart, LastDone, ResponseOf;
    AfterOne(es, e);
    AfterOne(es, f);
    AfterOne(es + [e], f);
    AfterOne(es + [f], e);
    SaySameThen(es + [e] + [f], es + [f] + [e], rest);
    SameResponse(es + [e] + [f] + rest, es + [f] + [e] + rest, parse);
  }

  /** Streams with the same deltas for each index build the same calls. */
  lemma SameDeltasSaySame(a: seq<StreamEvent>, b: seq<StreamEvent>)
    requires TextOf(a) == TextOf(b) && CompletedOf(a) == CompletedOf(b)
    requires LastStart(a) == LastStart(b) && LastDone(a) == LastDone(b)
    requires forall i: nat :: DeltasOf(a, i) == DeltasOf(b, i)
    ensures SaySame(a, b)
  {
  }

  // ---- replaying a response ----

  function CompleteEvents(blocks: seq<ContentBlock>): seq<StreamEvent> {
    if |blocks| == 0 then []
    else
      var n := |blocks| - 1;
      if blocks[n].ToolUse? then CompleteEvents(blocks[..n]) + [ToolCallComplete(blocks[n].id, blocks[n].name, blocks[n].input)]
      else CompleteEvents(blocks[..n])
  }

  function EventsOf(r: ProviderResponse): seq<StreamEvent> {
    [ResponseStart(r.model)]
    + (if r.text != "" then [TextDelta(r.text)] else [])
    + CompleteEvents(r.contentBlocks)
    + [Done(r.stopReason, r.inputTokens, r.outputTokens)]
  }

  method RespToEvents(resp: ProviderResponse) returns (events: seq<StreamEvent>)
    ensures events == EventsOf(resp)
  {
    events := [ResponseStart(resp.model)];
    if resp.text != "" {
      events := events + [TextDelta(resp.text)];
    }
    ghost var head := events;
    var blocks := resp.contentBlocks;
    for i := 0 to |blocks|
      invariant events == head + CompleteEvents(blocks[..i])
    {
      assert blocks[..i + 1][..i] == blocks[..i];
      match blocks[i] {
        case ToolUse(id, name, input) => events := events + [ToolCallComplete(id, name, input)];
        case _ =>
      }
    }
    assert blocks[..|blocks|] == blocks;
    events := events + [Done(resp.stopReason, resp.inputTokens, resp.outputTokens)];
  }

  /** The same response with its blocks reduced to an optional leading text block and the tool uses. */
  function Normalize(r: ProviderResponse): ProviderResponse {
    r.(contentBlocks := (if r.text != "" then [TextBlock(r.text)] else []) + ToolUses(r.contentBlocks))
  }

  lemma {:induction false} CompleteEventsSay(head: seq<StreamEvent>, blocks: seq<ContentBlock>)
    ensures var es := head + CompleteEvents(blocks);
            && TextOf(es) == TextOf(head) && LastStart(es) == LastStart(head) && LastDone(es) == LastDone(head)
            && CompletedOf(es) == CompletedOf(head) + ToolUses(blocks)
            && BuilderCount(es) == BuilderCount(head)
  {
    if |blocks| == 0 {
      assert head + CompleteEvents(blocks) == head;
    } else {
      var n := |blocks| - 1;
      CompleteEventsSay(head, blocks[..n]);
      if blocks[n].ToolUse? {
        var init, e := head + CompleteEvents(blocks[..n]), ToolCallComplete(blocks[n].id, blocks[n].name, blocks[n].input);
        assert head + CompleteEvents(blocks) == init + [e];
        assert (init + [e])[..|init|] == init;
      }
    }
  }

  ghost function HeadOf(r: ProviderResponse): seq<StreamEvent> {
    [ResponseStart(r.model)] + if r.text != "" then [TextDelta(r.text)] else []
  }

  lemma HeadSays(r: ProviderResponse)
    ensures var head := HeadOf(r);
            TextOf(head) == r.text && LastStart(head) == r.model && CompletedOf(head) == [] && BuilderCount(head) == 0
  {
    var none: seq<StreamEvent> := [];
    var start := none + [ResponseStart(r.model)];
    AfterOne(none, ResponseStart(r.model));
    AfterOne(start, TextDelta(r.text));
    assert "" + r.text == r.text;
    assert start == [ResponseStart(r.model)] && start + none == start;
  }

  /** Replaying a response and collecting it again gives the normalized response. */
  lemma RoundTrip(r: ProviderResponse, parse: JsonParser)
    ensures ResponseOf(EventsOf(r), parse) == Normalize(r)
  {
    hide TextOf, LastStart, LastDone, CompletedOf, BuilderCount, BuilderOf, CompleteEvents, ToolUses;
    var init, done := HeadOf(r) + CompleteEvents(r.contentBlocks), Done(r.stopReason, r.inputTokens, r.outputTokens);
    HeadSays(r);
    CompleteEventsSay(HeadOf(r), r.contentBlocks);
    AfterOne(init, done);
    assert EventsOf(r) == init + [done];
    var tools := ToolUses(r.contentBlocks);
    assert [] + tools == tools && tools + [] == tools;
  }

  /** A second round trip changes nothing. */
  lemma NormalizeIsIdempotent(r: ProviderResponse)
    ensures Normalize(Normalize(r)) == Normalize(r)
  {
    var tools := ToolUses(r.contentBlocks);
    ToolUsesMembers(r.contentBlocks);
    ToolUsesOfToolUses(tools);
    var lead := if r.text != "" then [TextBlock(r.text)] else [];
    ToolUsesOfConcat(lead, tools);
    assert ToolUses(lead) == [];
    assert [] + tools == tools;
  }
}
