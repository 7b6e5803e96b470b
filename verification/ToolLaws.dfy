/** What the small functions of the tool loop mean: texts, classified errors, answers of tools. */
module ToolLaws {
  import opened Wrappers
  import opened Whitespace
  import opened Text
  import opened JsonValues
  import opened LlmTypes
  import opened ToolLoops

  // ---- messages ----

  lemma InitialMessages(history: seq<ProviderMessage>, userMessage: string, imageContent: seq<ContentBlock>)
    ensures var messages := BuildInitialMessages(history, userMessage, imageContent);
            && history <= messages && |messages| == |history| + 1
            && var last := messages[|history|];
               && last.role == User && |last.content| == 1 + |imageContent|
               && last.content[0] == TextBlock(userMessage) && last.content[1..] == imageContent
  {
  }

  lemma AssistantMessage(response: ProviderResponse)
    ensures var message := response.ToAssistantMessage();
            && message.role == Assistant
            && (response.contentBlocks != [] ==> message.content == response.contentBlocks)
            && (response.contentBlocks == [] ==> |message.content| == 1 && message.content[0] == TextBlock(response.text))
  {
  }

  /** A block of an assistant's message with a text to show. */
  ghost predicate ShowsText(messages: seq<ProviderMessage>, m: int, b: int) {
    && 0 <= m < |messages| && 0 <= b < |messages[m].content|
    && messages[m].role == Assistant && messages[m].content[b].TextBlock? && messages[m].content[b].text != ""
  }

  ghost predicate IsBefore(m: int, b: int, n: int, c: int) {
    m < n || (m == n && b < c)
  }

  lemma {:induction false} LastTextInMeaning(blocks: seq<ContentBlock>) returns (b: int)
    ensures LastTextIn(blocks).Some? ==>
              && 0 <= b < |blocks| && blocks[b] == TextBlock(LastTextIn(blocks).value) && LastTextIn(blocks).value != ""
              && forall c | b < c < |blocks| :: !blocks[c].TextBlock? || blocks[c].text == ""
    ensures LastTextIn(blocks).None? ==> forall c | 0 <= c < |blocks| :: !blocks[c].TextBlock? || blocks[c].text == ""
  {
    b := |blocks| - 1;
    if |blocks| > 0 {
      var last := blocks[|blocks| - 1];
      if !(last.TextBlock? && last.text != "") {
        b := LastTextInMeaning(blocks[..|blocks| - 1]);
      }
    }
  }

  /** The last text is the one an assistant's message shows last; it is empty exactly if none shows any. */
  lemma {:induction false} LastTextMeaning(messages: seq<ProviderMessage>) returns (m: int, b: int)
    ensures ExtractLastText(messages) != "" ==>
              && ShowsText(messages, m, b) && messages[m].content[b].text == ExtractLastText(messages)
              && forall n, c | ShowsText(messages, n, c) :: !IsBefore(m, b, n, c)
    ensures ExtractLastText(messages) == "" ==> forall n, c :: !ShowsText(messages, n, c)
  {
    m, b := 0, 0;
    if |messages| > 0 {
      var last, init := messages[|messages| - 1], messages[..|messages| - 1];
      b := LastTextInMeaning(last.content);
      if last.role == Assistant && LastTextIn(last.content).Some? {
        m := |messages| - 1;
      } else {
        m, b := LastTextMeaning(init);
        forall n, c | ShowsText(messages, n, c) ensures ShowsText(init, n, c) {
        }
      }
    }
  }

  /** The final text: the last text, or else the last call's error, or else its output. */
  lemma FinalTextMeaning(messages: seq<ProviderMessage>, records: seq<ToolCallRecord>)
    ensures var text := ExtractLastText(messages);
            && (!Blank(text) ==> FinalText(messages, records) == text)
            && (Blank(text) && records == [] ==> FinalText(messages, records) == "")
            && (Blank(text) && records != [] ==>
                  var result := records[|records| - 1].result;
                  if result.error.Some? && !Blank(result.error.value)
                  then FinalText(messages, records) == "Tool execution failed: " + result.error.value
                  else FinalText(messages, records) == Trim(result.output))
  {
  }

  // ---- errors ----

  /** The needle stands somewhere in the text, capitals or not. */
  ghost predicate Mentions(text: string, needle: string) {
    exists i: nat :: MentionsAt(text, needle, i)
  }

  ghost predicate MentionsAt(text: string, needle: string, i: nat) {
    i + |needle| <= |text| && forall k | 0 <= k < |needle| :: SameLetter(text[i + k], needle[k])
  }

  lemma MentionsIsOccurrence(text: string, needle: string, i: nat)
    ensures OccursAt(Lower(text), Lower(needle), i) <==> MentionsAt(text, needle, i)
  {
    if i + |needle| <= |text| {
      var t, n := Lower(text), Lower(needle);
      assert t[i..i + |n|] == n <==> forall k | 0 <= k < |n| :: t[i + k] == n[k] by {
        if forall k | 0 <= k < |n| :: t[i + k] == n[k] {
          assert t[i..i + |n|] == n;
        }
        if t[i..i + |n|] == n {
          forall k | 0 <= k < |n| ensures t[i + k] == n[k] {
            assert t[i..i + |n|][k] == t[i + k];
          }
        }
      }
      forall k | 0 <= k < |needle| ensures t[i + k] == n[k] <==> SameLetter(text[i + k], needle[k]) {
        LowerAsciiMeaning(text[i + k], needle[k]);
      }
      hide SameLetter, LowerAscii;
      assert (forall k | 0 <= k < |n| :: t[i + k] == n[k]) <==> MentionsAt(text, needle, i) by {
        if MentionsAt(text, needle, i) {
          forall k | 0 <= k < |n| ensures t[i + k] == n[k] {
            assert SameLetter(text[i + k], needle[k]);
          }
        }
      }
    }
  }

  lemma ContainsIsMentions(text: string, needle: string)
    ensures ContainsIgnoreCase(text, needle) <==> Mentions(text, needle)
  {
    hide OccursAt, MentionsAt, Lower, Find;
    FindIsFirst(Lower(text), Lower(needle), 0);
    if ContainsIgnoreCase(text, needle) {
      MentionsIsOccurrence(text, needle, Find(Lower(text), Lower(needle), 0).value);
    }
    if i: nat :| MentionsAt(text, needle, i) {
      MentionsIsOccurrence(text, needle, i);
    }
  }

  /** A rate limit is recognized first, then a missing approval; nothing else stops a run. */
  lemma ClassifyMeaning(message: string)
    ensures ClassifyExecuteError(message) == Some(RateLimited) <==>
            Mentions(message, "action limit") || Mentions(message, "rate limit") || Mentions(message, "too many requests")
    ensures ClassifyExecuteError(message) == Some(ApprovalDenied) <==>
            ClassifyExecuteError(message) != Some(RateLimited)
            && (Mentions(message, "requires approval") || Mentions(message, "approval denied"))
    ensures ClassifyExecuteError(message) in {Some(RateLimited), Some(ApprovalDenied), None}
  {
    hide Mentions, ContainsIgnoreCase;
    ContainsIsMentions(message, "action limit");
    ContainsIsMentions(message, "rate limit");
    ContainsIsMentions(message, "too many requests");
    ContainsIsMentions(message, "requires approval");
    ContainsIsMentions(message, "approval denied");
  }

  // ---- answers of tools ----

  ghost predicate NoneBlocks(hooks: seq<PromptHook>, k: nat, n: nat, name: string, input: Json)
    requires k <= |hooks|
  {
    forall h | 0 <= h < k :: hooks[h](n, name, input).Continue?
  }

  lemma {:induction false} FirstBlockMeaning(hooks: seq<PromptHook>, n: nat, name: string, input: Json) returns (k: nat)
    ensures FirstBlock(hooks, n, name, input).None? ==> NoneBlocks(hooks, |hooks|, n, name, input)
    ensures FirstBlock(hooks, n, name, input).Some? ==>
              && k < |hooks| && NoneBlocks(hooks, k, n, name, input)
              && hooks[k](n, name, input) == Block(FirstBlock(hooks, n, name, input).value)
  {
    k := 0;
    if |hooks| > 0 && !hooks[0](n, name, input).Block? {
      var rest := hooks[1..];
      k := FirstBlockMeaning(rest, n, name, input);
      assert forall h | 1 <= h < |hooks| :: hooks[h] == rest[h - 1];
      k := k + 1;
    }
  }

  /** A result comes from the executor, no hook having blocked the call; an error that stops nothing is a failed result. */
  lemma AnswerMeaning(hooks: seq<PromptHook>, execute: ToolExecutor, n: nat, name: string, input: Json, result: ToolResult)
    ensures ToolAnswer(hooks, execute, n, name, input) == Ok(result) <==>
            && NoneBlocks(hooks, |hooks|, n, name, input)
            && match execute(n, name, input)
               case Ok(r) => result == r
               case Err(message) =>
                 && ClassifyExecuteError(message).None? && !result.success && result.output == ""
                 && result.error == Some(message) && result.attachments == []
  {
    hide ClassifyExecuteError, FirstBlock;
    var k := FirstBlockMeaning(hooks, n, name, input);
  }

  /** A refusal comes from the first hook that blocks the call, or from an error of the executor that stops the run. */
  lemma RefusalMeaning(hooks: seq<PromptHook>, execute: ToolExecutor, n: nat, name: string, input: Json, reason: LoopStopReason)
    ensures ToolAnswer(hooks, execute, n, name, input) == Err(reason) <==>
            || (exists k :: 0 <= k < |hooks| && NoneBlocks(hooks, k, n, name, input)
                  && hooks[k](n, name, input).Block? && reason == HookBlocked(hooks[k](n, name, input).reason))
            || (&& NoneBlocks(hooks, |hooks|, n, name, input)
                && execute(n, name, input).Err? && ClassifyExecuteError(execute(n, name, input).error) == Some(reason))
  {
    hide ClassifyExecuteError, FirstBlock;
    var k := FirstBlockMeaning(hooks, n, name, input);
    if j :| 0 <= j < |hooks| && NoneBlocks(hooks, j, n, name, input) && hooks[j](n, name, input).Block? {
      if FirstBlock(hooks, n, name, input).Some? {
        assert j == k;
      }
    }
  }

  // ---- what a run adds up ----

  /** Calls count as identical if tool, arguments and all of the result but its attachments are the same. */
  lemma SignatureMeaning(a: ToolCallRecord, b: ToolCallRecord)
    ensures SignatureOfRecord(a) == SignatureOfRecord(b) <==>
            && a.toolName == b.toolName && a.args == b.args && a.result.success == b.result.success
            && a.result.output == b.result.output && a.result.error == b.result.error
  {
  }

  lemma AttachmentsOfOne(c: ToolCallRecord)
    ensures AttachmentsOf([c]) == c.result.attachments
  {
    assert [c][..0] == [];
  }

  lemma NoAttachments(a: seq<ToolCallRecord>)
    ensures a + [] == a && AttachmentsOf(a) + AttachmentsOf([]) == AttachmentsOf(a)
  {
    assert AttachmentsOf([]) == [];
  }

  lemma AttachmentsMore(a: seq<ToolCallRecord>, c: ToolCallRecord)
    ensures AttachmentsOf(a + [c]) == AttachmentsOf(a) + c.result.attachments
  {
    assert (a + [c])[..|a|] == a;
  }

  lemma LastRecordApart(a: seq<ToolCallRecord>, b: seq<ToolCallRecord>)
    requires |b| > 0
    ensures b == b[..|b| - 1] + [b[|b| - 1]] && a + b == (a + b[..|b| - 1]) + [b[|b| - 1]]
  {
  }

  lemma JoinedAttachments(x: seq<OutputAttachment>, y: seq<OutputAttachment>, z: seq<OutputAttachment>)
    ensures (x + y) + z == x + (y + z)
  {
  }

  /** The attachments of all calls, in order. */
  lemma {:induction false} AttachmentsOfConcat(a: seq<ToolCallRecord>, b: seq<ToolCallRecord>)
    ensures AttachmentsOf(a + b) == AttachmentsOf(a) + AttachmentsOf(b)
  {
    hide AttachmentsOf;
    if |b| == 0 {
      NoAttachments(a);
      assert b == [];
    } else {
      var init, last := b[..|b| - 1], b[|b| - 1];
      AttachmentsOfConcat(a, init);
      LastRecordApart(a, b);
      AttachmentsMore(a + init, last);
      AttachmentsMore(init, last);
      JoinedAttachments(AttachmentsOf(a), AttachmentsOf(init), last.result.attachments);
    }
  }

  ghost predicate Counts(r: ProviderResponse) {
    r.inputTokens.Some? && r.outputTokens.Some?
  }

  ghost function SumOf(responses: seq<ProviderResponse>): nat {
    if |responses| == 0 then 0
    else (if Counts(responses[0]) then responses[0].inputTokens.value + responses[0].outputTokens.value else 0) + SumOf(responses[1..])
  }

  /** The tokens are the sum over the responses that give both counts; there is none exactly if no response does. */
  lemma {:induction false} TokensMeaning(responses: seq<ProviderResponse>)
    ensures TokensOf(responses).None? <==> forall r | r in responses :: !Counts(r)
    ensures TokensOf(responses).Some? ==> TokensOf(responses).value == SumOf(responses)
    ensures TokensOf(responses).None? ==> SumOf(responses) == 0
  {
    if |responses| > 0 {
      var n := |responses| - 1;
      TokensMeaning(responses[..n]);
      assert responses == responses[..n] + [responses[n]];
      SumOfLast(responses[..n], responses[n]);
    }
  }

  lemma {:induction false} SumOfLast(responses: seq<ProviderResponse>, r: ProviderResponse)
    ensures SumOf(responses + [r]) == SumOf(responses) + if Counts(r) then r.inputTokens.value + r.outputTokens.value else 0
  {
    if |responses| > 0 {
      SumOfLast(responses[1..], r);
      assert (responses + [r])[1..] == responses[1..] + [r];
    }
  }
}
