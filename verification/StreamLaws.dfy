/** What a collected stream holds, told event by event. */
module StreamLaws {
  import opened Wrappers
  import opened JsonValues
  import opened LlmTypes
  import opened Streaming

  // ---- tool calls built from deltas ----

  ghost predicate IsDelta(es: seq<StreamEvent>, k: int, index: nat) {
    0 <= k < |es| && es[k].ToolCallDelta? && es[k].index == index
  }

  /** The last delta of the index that gives an id gives this one. */
  ghost predicate IsLastId(es: seq<StreamEvent>, index: nat, id: string) {
    exists k :: IsDelta(es, k, index) && es[k].id == Some(id) && forall j | k < j && IsDelta(es, j, index) :: es[j].id.None?
  }

  ghost predicate IsLastName(es: seq<StreamEvent>, index: nat, name: string) {
    exists k :: IsDelta(es, k, index) && es[k].name == Some(name) && forall j | k < j && IsDelta(es, j, index) :: es[j].name.None?
  }

  ghost predicate HasNoId(es: seq<StreamEvent>, index: nat) {
    forall k | IsDelta(es, k, index) :: es[k].id.None?
  }

  ghost predicate HasNoName(es: seq<StreamEvent>, index: nat) {
    forall k | IsDelta(es, k, index) :: es[k].name.None?
  }

  /** The JSON pieces of the index, joined in order. */
  ghost function JsonOf(es: seq<StreamEvent>, index: nat): string {
    if |es| == 0 then ""
    else JsonOf(es[..|es| - 1], index) + if IsDelta(es, |es| - 1, index) then es[|es| - 1].inputJsonDelta else ""
  }

  lemma DeltasBefore(es: seq<StreamEvent>, e: StreamEvent, index: nat)
    ensures forall k | 0 <= k < |es| :: IsDelta(es + [e], k, index) <==> IsDelta(es, k, index)
    ensures IsDelta(es + [e], |es|, index) <==> e.ToolCallDelta? && e.index == index
    ensures (es + [e])[..|es|] == es
  {
  }

  lemma LastIdAfter(es: seq<StreamEvent>, e: StreamEvent, index: nat, id: string)
    requires IsLastId(es, index, id)
    ensures !(e.ToolCallDelta? && e.index == index && e.id.Some?) ==> IsLastId(es + [e], index, id)
  {
    DeltasBefore(es, e, index);
    var k :| IsDelta(es, k, index) && es[k].id == Some(id) && forall j | k < j && IsDelta(es, j, index) :: es[j].id.None?;
    assert IsDelta(es + [e], k, index);
    forall j | k < j && IsDelta(es + [e], j, index) && j < |es| ensures (es + [e])[j].id.None? {
      assert IsDelta(es, j, index);
    }
  }

  lemma LastNameAfter(es: seq<StreamEvent>, e: StreamEvent, index: nat, name: string)
    requires IsLastName(es, index, name)
    ensures !(e.ToolCallDelta? && e.index == index && e.name.Some?) ==> IsLastName(es + [e], index, name)
  {
    DeltasBefore(es, e, index);
    var k :| IsDelta(es, k, index) && es[k].name == Some(name) && forall j | k < j && IsDelta(es, j, index) :: es[j].name.None?;
    assert IsDelta(es + [e], k, index);
    forall j | k < j && IsDelta(es + [e], j, index) && j < |es| ensures (es + [e])[j].name.None? {
      assert IsDelta(es, j, index);
    }
  }

  lemma GivesLast(es: seq<StreamEvent>, e: StreamEvent, index: nat)
    requires e.ToolCallDelta? && e.index == index
    ensures e.id.Some? ==> IsLastId(es + [e], index, e.id.value)
    ensures e.name.Some? ==> IsLastName(es + [e], index, e.name.value)
  {
    assert IsDelta(es + [e], |es|, index);
  }

  /** A builder has the last id and the last name given, and all the JSON text. */
  ghost predicate IsBuilt(es: seq<StreamEvent>, index: nat, b: ToolCallBuilder) {
    && b.inputJson == JsonOf(es, index)
    && (IsLastId(es, index, b.id) || (b.id == "" && HasNoId(es, index)))
    && (IsLastName(es, index, b.name) || (b.name == "" && HasNoName(es, index)))
  }

  lemma BuiltMore(es: seq<StreamEvent>, e: StreamEvent, index: nat, b: ToolCallBuilder)
    requires IsBuilt(es, index, b)
    ensures IsBuilt(es + [e], index, if e.ToolCallDelta? && e.index == index then AddDelta(b, e) else b)
  {
    hide IsLastId, IsLastName;
    DeltasBefore(es, e, index);
    if IsLastId(es, index, b.id) {
      LastIdAfter(es, e, index, b.id);
    }
    if IsLastName(es, index, b.name) {
      LastNameAfter(es, e, index, b.name);
    }
    if e.ToolCallDelta? && e.index == index {
      GivesLast(es, e, index);
    }
    assert JsonOf(es, index) + "" == JsonOf(es, index);
  }

  lemma {:induction false} BuilderMeaning(es: seq<StreamEvent>, index: nat)
    ensures IsBuilt(es, index, BuilderOf(es, index))
  {
    hide IsBuilt, BuilderOf, AddDelta;
    if |es| == 0 {
      NothingBuilt(index);
    } else {
      var init, e := es[..|es| - 1], es[|es| - 1];
      BuilderMeaning(init, index);
      BuiltMore(init, e, index, BuilderOf(init, index));
      BuildersAfter(init, e);
      assert es == init + [e];
    }
  }

  lemma NothingBuilt(index: nat)
    ensures IsBuilt([], index, BuilderOf([], index))
  {
  }

  /** The deltas of the index give this tool use: last id, last name, and the value of the JSON text. */
  ghost predicate GivesCall(es: seq<StreamEvent>, index: nat, parse: JsonParser, block: ContentBlock) {
    && block.ToolUse? && block.id != "" && block.name != ""
    && IsLastId(es, index, block.id) && IsLastName(es, index, block.name)
    && parse(JsonOf(es, index)) == Some(block.input)
  }

  lemma LastIdIsUnique(es: seq<StreamEvent>, index: nat, a: string, b: string)
    requires IsLastId(es, index, a) && IsLastId(es, index, b)
    ensures a == b
  {
    var j :| IsDelta(es, j, index) && es[j].id == Some(a) && forall i | j < i && IsDelta(es, i, index) :: es[i].id.None?;
    var k :| IsDelta(es, k, index) && es[k].id == Some(b) && forall i | k < i && IsDelta(es, i, index) :: es[i].id.None?;
    assert j == k;
  }

  lemma LastNameIsUnique(es: seq<StreamEvent>, index: nat, a: string, b: string)
    requires IsLastName(es, index, a) && IsLastName(es, index, b)
    ensures a == b
  {
    var j :| IsDelta(es, j, index) && es[j].name == Some(a) && forall i | j < i && IsDelta(es, i, index) :: es[i].name.None?;
    var k :| IsDelta(es, k, index) && es[k].name == Some(b) && forall i | k < i && IsDelta(es, i, index) :: es[i].name.None?;
    assert j == k;
  }

  lemma AssembleMeaning(es: seq<StreamEvent>, index: nat, parse: JsonParser, block: ContentBlock)
    ensures GivesCall(es, index, parse, block) <==> Assemble(BuilderOf(es, index), parse) == [block]
    ensures |Assemble(BuilderOf(es, index), parse)| <= 1
  {
    hide IsLastId, IsLastName, BuilderOf, JsonOf;
    BuilderMeaning(es, index);
    var b := BuilderOf(es, index);
    if GivesCall(es, index, parse, block) {
      HasLast(es, index, block.id, block.name);
      LastIdIsUnique(es, index, b.id, block.id);
      LastNameIsUnique(es, index, b.name, block.name);
    }
  }

  lemma HasLast(es: seq<StreamEvent>, index: nat, id: string, name: string)
    requires IsLastId(es, index, id) && IsLastName(es, index, name)
    ensures !HasNoId(es, index) && !HasNoName(es, index)
  {
  }

  /** The calls built come in index order, each once, and none is left out. */
  lemma {:induction false} AssembledMeaning(es: seq<StreamEvent>, n: nat, parse: JsonParser) returns (at: seq<nat>)
    ensures |at| == |AssembledUpTo(es, n, parse)|
    ensures forall k | 0 <= k < |at| :: at[k] < n && GivesCall(es, at[k], parse, AssembledUpTo(es, n, parse)[k])
    ensures forall j, k | 0 <= j < k < |at| :: at[j] < at[k]
    ensures forall i: nat, block | i < n && GivesCall(es, i, parse, block) :: i in at
  {
    hide GivesCall, BuilderOf, Assemble;
    at := [];
    if n > 0 {
      var before := AssembledMeaning(es, n - 1, parse);
      var last := Assemble(BuilderOf(es, n - 1), parse);
      at := before;
      if last != [] {
        AssembleMeaning(es, n - 1, parse, last[0]);
        at := before + [n - 1];
        assert at[|before|] == n - 1;
      }
      forall i: nat, block | i < n && GivesCall(es, i, parse, block) ensures i in at {
        if i == n - 1 {
          AssembleMeaning(es, i, parse, block);
        } else {
          assert i in before;
        }
      }
    }
  }

  lemma {:induction false} NoCallBeyond(es: seq<StreamEvent>, i: nat, parse: JsonParser, block: ContentBlock)
    requires GivesCall(es, i, parse, block)
    ensures i < BuilderCount(es)
  {
    hide BuilderOf, BuilderCount;
    AssembleMeaning(es, i, parse, block);
    NoDeltasBeyond(es);
  }

  /** The blocks of a response: the text if there is any, the completed calls, then the calls that deltas give, in index order. */
  lemma ResponseMeaning(es: seq<StreamEvent>, parse: JsonParser) returns (built: seq<ContentBlock>, at: seq<nat>)
    ensures var r := ResponseOf(es, parse);
            && r.text == TextOf(es) && r.model == LastStart(es)
            && (LastDone(es).Done? ==> LastDone(es) == Done(r.stopReason, r.inputTokens, r.outputTokens))
            && r.contentBlocks == (if TextOf(es) == "" then [] else [TextBlock(TextOf(es))]) + CompletedOf(es) + built
    ensures |at| == |built| && forall k | 0 <= k < |at| :: GivesCall(es, at[k], parse, built[k])
    ensures forall j, k | 0 <= j < k < |at| :: at[j] < at[k]
    ensures forall i: nat, block | GivesCall(es, i, parse, block) :: i in at
  {
    hide GivesCall, BuilderOf, TextOf, CompletedOf, LastStart, LastDone, BuilderCount, AssembledUpTo;
    built := AssembledUpTo(es, BuilderCount(es), parse);
    at := AssembledMeaning(es, BuilderCount(es), parse);
    forall i: nat, block | GivesCall(es, i, parse, block) ensures i in at {
      NoCallBeyond(es, i, parse, block);
    }
    assert [] + CompletedOf(es) + built == CompletedOf(es) + built;
    assert [TextBlock(TextOf(es))] + CompletedOf(es) + built == [TextBlock(TextOf(es))] + (CompletedOf(es) + built);
  }

  /** A stream that has ended has said how. */
  lemma {:induction false} LastDoneIsDone(es: seq<StreamEvent>)
    ensures LastDone(es).Done? && (LastDone(es) in es || (LastDone(es) == Done(None, None, None) && forall e | e in es :: !e.Done?))
  {
    if |es| > 0 {
      LastDoneIsDone(es[..|es| - 1]);
      assert es == es[..|es| - 1] + [es[|es| - 1]];
    }
  }

  // ---- a response as events ----

  lemma {:induction false} CompleteEventsMeaning(blocks: seq<ContentBlock>)
    ensures |CompleteEvents(blocks)| == |ToolUses(blocks)|
    ensures forall k | 0 <= k < |ToolUses(blocks)| ::
              var e, use := CompleteEvents(blocks)[k], ToolUses(blocks)[k];
              use.ToolUse? && e.ToolCallComplete? && e.callId == use.id && e.callName == use.name && e.input == use.input
  {
    if |blocks| > 0 {
      CompleteEventsMeaning(blocks[..|blocks| - 1]);
    }
  }

  /** The events of a response: its start, its text if there is any, each tool use, its end. */
  lemma EventsMeaning(r: ProviderResponse)
    ensures var es, uses := EventsOf(r), ToolUses(r.contentBlocks);
            var lead := if r.text == "" then 1 else 2;
            && |es| == lead + |uses| + 1 && es[0] == ResponseStart(r.model)
            && (r.text != "" ==> es[1] == TextDelta(r.text))
            && (forall k | 0 <= k < |uses| ::
                  && es[lead + k].ToolCallComplete? && uses[k].ToolUse? && es[lead + k].callId == uses[k].id
                  && es[lead + k].callName == uses[k].name && es[lead + k].input == uses[k].input)
            && es[|es| - 1] == Done(r.stopReason, r.inputTokens, r.outputTokens)
  {
    hide ToolUses, CompleteEvents;
    CompleteEventsMeaning(r.contentBlocks);
  }
}
