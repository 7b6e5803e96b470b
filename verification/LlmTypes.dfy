/** Messages, responses and tool-use blocks. */
module LlmTypes {
  import opened Wrappers
  import opened JsonValues

  datatype ImageSource = Base64Image(mediaType: string, data: string) | UrlImage(url: string)

  datatype ContentBlock =
    | TextBlock(text: string)
    | ToolUse(id: string, name: string, input: Json)
    | ToolResultBlock(toolUseId: string, content: string, isError: bool)
    | Image(source: ImageSource)

  datatype MessageRole = User | Assistant | System
  datatype ProviderMessage = ProviderMessage(role: MessageRole, content: seq<ContentBlock>)
  datatype StopReason = EndTurn | ToolUseStop | MaxTokens | ErrorStop

  datatype ProviderResponse = ProviderResponse(
    text: string,
    inputTokens: Option<nat>,
    outputTokens: Option<nat>,
    model: Option<string>,
    contentBlocks: seq<ContentBlock>,
    stopReason: Option<StopReason>)
  {
    function TotalTokens(): Option<nat> {
      match (inputTokens, outputTokens)
      case (Some(i), Some(o)) => Some(i + o)
      case _ => None
    }

    function ToolUseBlocks(): seq<ContentBlock> {
      ToolUses(contentBlocks)
    }

    predicate HasToolUse() {
      exists b | b in contentBlocks :: b.ToolUse?
    }

    function ToAssistantMessage(): ProviderMessage {
      ProviderMessage(Assistant, if |contentBlocks| == 0 then [TextBlock(text)] else contentBlocks)
    }
  }

  /** The tool-use blocks, in order. */
  function ToolUses(blocks: seq<ContentBlock>): seq<ContentBlock> {
    if |blocks| == 0 then []
    else
      var n := |blocks| - 1;
      if blocks[n].ToolUse? then ToolUses(blocks[..n]) + [blocks[n]] else ToolUses(blocks[..n])
  }

  lemma {:induction false} ToolUsesMembers(blocks: seq<ContentBlock>)
    ensures forall b :: b in ToolUses(blocks) <==> b in blocks && b.ToolUse?
  {
    if |blocks| > 0 {
      var n := |blocks| - 1;
      ToolUsesMembers(blocks[..n]);
      assert blocks == blocks[..n] + [blocks[n]];
    }
  }

  /** They are the tool-use blocks of the response, each once and in the same order. */
  lemma {:induction false} ToolUsesInOrder(blocks: seq<ContentBlock>) returns (at: seq<nat>)
    ensures |at| == |ToolUses(blocks)|
    ensures forall k | 0 <= k < |at| :: at[k] < |blocks| && ToolUses(blocks)[k] == blocks[at[k]] && blocks[at[k]].ToolUse?
    ensures forall j, k | 0 <= j < k < |at| :: at[j] < at[k]
    ensures forall i | 0 <= i < |blocks| && blocks[i].ToolUse? :: i in at
  {
    at := [];
    if |blocks| > 0 {
      var n := |blocks| - 1;
      at := ToolUsesInOrder(blocks[..n]);
      if blocks[n].ToolUse? {
        ghost var before := at;
        at := at + [n];
        assert forall i | i in before :: i in at;
        assert at[|before|] == n;
      }
    }
  }

  lemma ToolUsesMore(blocks: seq<ContentBlock>, b: ContentBlock)
    ensures ToolUses(blocks + [b]) == ToolUses(blocks) + if b.ToolUse? then [b] else []
  {
    assert (blocks + [b])[..|blocks|] == blocks;
  }

  lemma NoToolUsesMore(a: seq<ContentBlock>)
    ensures a + [] == a && ToolUses(a) + ToolUses([]) == ToolUses(a)
  {
    assert ToolUses([]) == [];
  }

  lemma BlockApart(a: seq<ContentBlock>, b: seq<ContentBlock>)
    requires |b| > 0
    ensures b == b[..|b| - 1] + [b[|b| - 1]] && a + b == (a + b[..|b| - 1]) + [b[|b| - 1]]
  {
  }

  lemma JoinedBlocks(x: seq<ContentBlock>, y: seq<ContentBlock>, z: seq<ContentBlock>)
    ensures (x + y) + z == x + (y + z)
  {
  }

  lemma {:induction false} ToolUsesOfConcat(a: seq<ContentBlock>, b: seq<ContentBlock>)
    ensures ToolUses(a + b) == ToolUses(a) + ToolUses(b)
  {
    hide ToolUses;
    if |b| == 0 {
      NoToolUsesMore(a);
      assert b == [];
    } else {
      var init, last := b[..|b| - 1], b[|b| - 1];
      ToolUsesOfConcat(a, init);
      BlockApart(a, b);
      ToolUsesMore(a + init, last);
      ToolUsesMore(init, last);
      JoinedBlocks(ToolUses(a), ToolUses(init), if last.ToolUse? then [last] else []);
    }
  }

  lemma {:induction false} ToolUsesOfToolUses(blocks: seq<ContentBlock>)
    requires forall b | b in blocks :: b.ToolUse?
    ensures ToolUses(blocks) == blocks
  {
    if |blocks| > 0 {
      var n := |blocks| - 1;
      ToolUsesOfToolUses(blocks[..n]);
      assert blocks == blocks[..n] + [blocks[n]];
    }
  }

  function UserMessage(text: string): ProviderMessage {
    ProviderMessage(User, [TextBlock(text)])
  }

  function ToolResultMessage(toolUseId: string, content: string, isError: bool): ProviderMessage {
    ProviderMessage(User, [ToolResultBlock(toolUseId, content, isError)])
  }
}
