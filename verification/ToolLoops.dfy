/** The bounded conversation between a provider and its tools. */
module ToolLoops {
  import opened Wrappers
  import opened JsonValues
  import opened Whitespace
  import opened Text
  import opened LlmTypes

  const TOOL_LOOP_HARD_CAP := 25
  const DEFAULT_REPEATED_TOOL_CALL_STREAK_LIMIT := 3

  datatype OutputAttachment = OutputAttachment(
    mimeType: string, filename: Option<string>, path: Option<string>, url: Option<string>)

  datatype ToolResult = ToolResult(success: bool, output: string, error: Option<string>, attachments: seq<OutputAttachment>)
  datatype ToolCallRecord = ToolCallRecord(toolName: string, args: Json, result: ToolResult, iteration: nat)

  datatype LoopStopReason =
    | Completed
    | MaxIterations
    | Error(message: string)
    | ApprovalDenied
    | RateLimited
    | HookBlocked(reason: string)

  datatype ToolLoopResult = ToolLoopResult(
    finalText: string,
    toolCalls: seq<ToolCallRecord>,
    attachments: seq<OutputAttachment>,
    iterations: nat,
    tokensUsed: Option<nat>,
    stopReason: LoopStopReason)

  datatype HookDecision = Continue | Block(reason: string)

  // The world outside: any answer at all for the n-th provider call, and for the n-th tool execution, so that
  // providers, tools and hooks with a state of their own are covered.
  type Provider = (nat, seq<ProviderMessage>) -> Result<ProviderResponse, string>
  type ToolExecutor = (nat, string, Json) -> Result<ToolResult, string>
  type PromptHook = (nat, string, Json) -> HookDecision

  // ---- messages and texts ----

  function BuildInitialMessages(history: seq<ProviderMessage>, userMessage: string, imageContent: seq<ContentBlock>): seq<ProviderMessage> {
    if |imageContent| == 0 then history + [UserMessage(userMessage)]
    else history + [ProviderMessage(User, [TextBlock(userMessage)] + imageContent)]
  }

  function LastTextIn(blocks: seq<ContentBlock>): Option<string> {
    if |blocks| == 0 then None
    else
      var last := blocks[|blocks| - 1];
      if last.TextBlock? && last.text != "" then Some(last.text) else LastTextIn(blocks[..|blocks| - 1])
  }

  function ExtractLastText(messages: seq<ProviderMessage>): string {
    if |messages| == 0 then ""
    else
      var last, init := messages[|messages| - 1], messages[..|messages| - 1];
      if last.role == Assistant && LastTextIn(last.content).Some? then LastTextIn(last.content).value
      else ExtractLastText(init)
  }

  function FormatToolResultContent(result: ToolResult): string {
    match result.error
    case Some(error) => "[ERROR] " + error
    case None => result.output
  }

  predicate ContainsIgnoreCase(haystack: string, needle: string) {
    Contains(Lower(haystack), Lower(needle))
  }

  function ClassifyExecuteError(message: string): Option<LoopStopReason> {
    if ContainsIgnoreCase(message, "action limit") || ContainsIgnoreCase(message, "rate limit")
       || ContainsIgnoreCase(message, "too many requests") then Some(RateLimited)
    else if ContainsIgnoreCase(message, "requires approval") || ContainsIgnoreCase(message, "approval denied") then
      Some(ApprovalDenied)
    else None
  }

  function FallbackTextFromLastToolCall(toolCalls: seq<ToolCallRecord>): Option<string> {
    if |toolCalls| == 0 then None
    else
      var last := toolCalls[|toolCalls| - 1].result;
      if last.error.Some? && !Blank(last.error.value) then Some("Tool execution failed: " + last.error.value)
      else if Blank(last.output) then None
      else Some(Trim(last.output))
  }

  // ---- the streak of identical calls ----

  datatype ToolCallSignature = ToolCallSignature(toolName: string, args: Json, success: bool, output: string, error: Option<string>)

  function SignatureOf(toolName: string, args: Json, result: ToolResult): ToolCallSignature {
    ToolCallSignature(toolName, args, result.success, result.output, result.error)
  }

  function SignatureOfRecord(record: ToolCallRecord): ToolCallSignature {
    SignatureOf(record.toolName, record.args, record.result)
  }

  /** The length of the run of calls with one signature at the end. */
  ghost function Streak(calls: seq<ToolCallRecord>): nat {
    if |calls| == 0 then 0
    else
      var n := |calls| - 1;
      if n > 0 && SignatureOfRecord(calls[n]) == SignatureOfRecord(calls[n - 1]) then Streak(calls[..n]) + 1 else 1
  }

  /** It is the longest suffix of calls that all have the signature of the last one. */
  lemma {:induction false} StreakIsLongest(calls: seq<ToolCallRecord>)
    requires |calls| > 0
    ensures var last := SignatureOfRecord(calls[|calls| - 1]);
            && 1 <= Streak(calls) <= |calls|
            && (forall i | |calls| - Streak(calls) <= i < |calls| :: SignatureOfRecord(calls[i]) == last)
            && (Streak(calls) < |calls| ==> SignatureOfRecord(calls[|calls| - Streak(calls) - 1]) != last)
  {
    hide SignatureOfRecord;
    var n := |calls| - 1;
    if n > 0 && SignatureOfRecord(calls[n]) == SignatureOfRecord(calls[n - 1]) {
      StreakIsLongest(calls[..n]);
    }
  }

  /** No run of identical calls has reached the limit, at any point so far. */
  ghost predicate NeverReached(calls: seq<ToolCallRecord>, limit: nat) {
    forall n | 0 <= n <= |calls| :: Streak(calls[..n]) < limit
  }

  lemma NeverReachedOneMore(calls: seq<ToolCallRecord>, record: ToolCallRecord, limit: nat)
    requires NeverReached(calls, limit) && Streak(calls + [record]) < limit
    ensures NeverReached(calls + [record], limit)
  {
    var more := calls + [record];
    forall n | 0 <= n <= |more| ensures Streak(more[..n]) < limit {
      if n <= |calls| {
        assert more[..n] == calls[..n];
      } else {
        assert more[..n] == more;
      }
    }
  }

  // ---- what the conversation looks like ----

  predicate IsResultFor(message: ProviderMessage, toolUse: ContentBlock) {
    && toolUse.ToolUse? && message.role == User && |message.content| == 1
    && message.content[0].ToolResultBlock? && message.content[0].toolUseId == toolUse.id
  }

  /** Assistant turns with tool uses, each followed by one result per tool use, ids matching, in block order. */
  ghost predicate Paired(messages: seq<ProviderMessage>)
    decreases |messages|
  {
    |messages| > 0 ==>
      var uses := ToolUses(messages[0].content);
      && messages[0].role == Assistant && |uses| > 0 && 1 + |uses| <= |messages|
      && (forall k | 0 <= k < |uses| :: IsResultFor(messages[1 + k], uses[k]))
      && Paired(messages[1 + |uses|..])
  }

  ghost predicate IsTurn(turn: seq<ProviderMessage>) {
    && |turn| > 0 && turn[0].role == Assistant
    && var uses := ToolUses(turn[0].content);
       && |uses| > 0 && |turn| == 1 + |uses|
       && forall k | 0 <= k < |uses| :: IsResultFor(turn[1 + k], uses[k])
  }

  lemma {:induction false} PairedThenTurn(messages: seq<ProviderMessage>, turn: seq<ProviderMessage>)
    requires Paired(messages) && IsTurn(turn)
    ensures Paired(messages + turn)
    decreases |messages|
  {
    hide ToolUses, IsResultFor;
    var all := messages + turn;
    if |messages| == 0 {
      assert all == turn;
      assert turn[|turn|..] == [];
    } else {
      var n := 1 + |ToolUses(messages[0].content)|;
      PairedThenTurn(messages[n..], turn);
      assert all[n..] == messages[n..] + turn;
    }
  }

  predicate IsResultMessage(message: ProviderMessage) {
    message.role == User && |message.content| == 1 && message.content[0].ToolResultBlock?
  }

  /** The tool results in a conversation, in order. */
  ghost function ResultsOf(messages: seq<ProviderMessage>): seq<ContentBlock> {
    if |messages| == 0 then []
    else
      var last := messages[|messages| - 1];
      ResultsOf(messages[..|messages| - 1]) + if IsResultMessage(last) then [last.content[0]] else []
  }

  lemma ResultsOneMore(messages: seq<ProviderMessage>, message: ProviderMessage)
    ensures ResultsOf(messages + [message]) == ResultsOf(messages) + if IsResultMessage(message) then [message.content[0]] else []
  {
    assert (messages + [message])[..|messages|] == messages;
  }

  /** What the model is told about a call: its output, or its error with a mark before it, and whether it failed. */
  ghost predicate Tells(result: ContentBlock, record: ToolCallRecord) {
    && result.ToolResultBlock? && result.isError == !record.result.success
    && match record.result.error
       case None => result.content == record.result.output
       case Some(error) => result.content == "[ERROR] " + error
  }

  ghost predicate Reported(toolCalls: seq<ToolCallRecord>, results: seq<ContentBlock>) {
    |toolCalls| == |results| && forall k | 0 <= k < |results| :: Tells(results[k], toolCalls[k])
  }

  // ---- the loop's state ----

  function AttachmentsOf(calls: seq<ToolCallRecord>): seq<OutputAttachment> {
    if |calls| == 0 then [] else AttachmentsOf(calls[..|calls| - 1]) + calls[|calls| - 1].result.attachments
  }

  class LoopState {
    var toolCalls: seq<ToolCallRecord>
    var attachments: seq<OutputAttachment>
    var totalTokens: nat
    var hasTokenInfo: bool
    var iteration: nat
    var repeatedToolCallStreak: nat
    var lastToolCallSignature: Option<ToolCallSignature>

    constructor ()
      ensures toolCalls == [] && attachments == [] && totalTokens == 0 && !hasTokenInfo && iteration == 0
      ensures Valid()
    {
      toolCalls, attachments, totalTokens, hasTokenInfo := [], [], 0, false;
      iteration, repeatedToolCallStreak, lastToolCallSignature := 0, 0, None;
    }

    /** The streak fields describe the given calls. */
    ghost predicate Tracks(calls: seq<ToolCallRecord>)
      reads `repeatedToolCallStreak, `lastToolCallSignature
    {
      && repeatedToolCallStreak == Streak(calls)
      && lastToolCallSignature == if |calls| == 0 then None else Some(SignatureOfRecord(calls[|calls| - 1]))
    }

    ghost predicate Valid()
      reads `toolCalls, `attachments, `repeatedToolCallStreak, `lastToolCallSignature
    {
      Tracks(toolCalls) && attachments == AttachmentsOf(toolCalls)
    }

    function TokensUsed(): Option<nat>
      reads this
    {
      if hasTokenInfo then Some(totalTokens) else None
    }

    /** Called for the record just pushed: counts it into the streak, and says whether the limit is reached. */
    method HasRepeatedToolCallStreak(toolName: string, input: Json, result: ToolResult, streakLimit: nat) returns (reached: bool)
      requires |toolCalls| > 0 && Tracks(toolCalls[..|toolCalls| - 1])
      requires SignatureOfRecord(toolCalls[|toolCalls| - 1]) == SignatureOf(toolName, input, result)
      modifies `repeatedToolCallStreak, `lastToolCallSignature
      ensures Tracks(toolCalls)
      ensures reached <==> Streak(toolCalls) >= streakLimit
    {
      var signature := SignatureOf(toolName, input, result);
      if lastToolCallSignature == Some(signature) {
        repeatedToolCallStreak := repeatedToolCallStreak + 1;
      } else {
        repeatedToolCallStreak := 1;
      }
      lastToolCallSignature := Some(signature);
      reached := repeatedToolCallStreak >= streakLimit;
    }
  }

  // ---- one batch of tool calls ----

  function StreakStop(): LoopStopReason {
    HookBlocked("repeated_identical_tool_call")
  }

  datatype ToolBatchOutcome = Proceed | Stop(reason: LoopStopReason)

  /** The reason of the first hook that blocks the call, if any does. */
  ghost function FirstBlock(hooks: seq<PromptHook>, n: nat, name: string, input: Json): Option<string> {
    if |hooks| == 0 then None
    else if hooks[0](n, name, input).Block? then Some(hooks[0](n, name, input).reason)
    else FirstBlock(hooks[1..], n, name, input)
  }

  /** What the n-th execution comes to: a result to record, or the reason to stop the run before recording anything. */
  ghost function ToolAnswer(hooks: seq<PromptHook>, execute: ToolExecutor, n: nat, name: string, input: Json): Result<ToolResult, LoopStopReason> {
    match FirstBlock(hooks, n, name, input)
    case Some(reason) => Err(HookBlocked(reason))
    case None =>
      match execute(n, name, input)
      case Ok(result) => Ok(result)
      case Err(message) =>
        match ClassifyExecuteError(message)
        case Some(stop) => Err(stop)
        case None => Ok(ToolResult(false, "", Some(message), []))
  }

  /** The n-th execution is the given tool use, and comes to the given reason to stop. */
  ghost predicate Refused(hooks: seq<PromptHook>, execute: ToolExecutor, n: nat, use: ContentBlock, reason: LoopStopReason) {
    use.ToolUse? && ToolAnswer(hooks, execute, n, use.name, use.input) == Err(reason)
  }

  ghost predicate Serves(use: ContentBlock, record: ToolCallRecord) {
    use.ToolUse? && record.toolName == use.name && record.args == use.input
  }

  /** The records are those of the first tool uses, in order. */
  ghost predicate ServesEach(uses: seq<ContentBlock>, records: seq<ToolCallRecord>) {
    |records| <= |uses| && forall k | 0 <= k < |records| :: Serves(uses[k], records[k])
  }

  /** The tool uses of all responses, in order. */
  ghost function Requested(responses: seq<ProviderResponse>): seq<ContentBlock> {
    if |responses| == 0 then []
    else Requested(responses[..|responses| - 1]) + responses[|responses| - 1].ToolUseBlocks()
  }

  /** For each of them the iteration it belongs to. */
  ghost function Rounds(responses: seq<ProviderResponse>): seq<nat> {
    if |responses| == 0 then []
    else Rounds(responses[..|responses| - 1]) + Repeat(|responses[|responses| - 1].ToolUseBlocks()|, |responses|)
  }

  /** The records are those of the first tool uses of the responses, in order, with their iterations. */
  ghost predicate Serviced(responses: seq<ProviderResponse>, records: seq<ToolCallRecord>) {
    && ServesEach(Requested(responses), records)
    && |records| <= |Rounds(responses)| && forall k | 0 <= k < |records| :: records[k].iteration == Rounds(responses)[k]
  }

  /** Every tool use so far has its record. */
  ghost predicate Handled(responses: seq<ProviderResponse>, records: seq<ToolCallRecord>) {
    |records| == |Requested(responses)| == |Rounds(responses)| && Serviced(responses, records)
  }

  lemma RequestedOneMore(responses: seq<ProviderResponse>, response: ProviderResponse)
    ensures Requested(responses + [response]) == Requested(responses) + response.ToolUseBlocks()
  {
    hide ToolUses;
    assert (responses + [response])[..|responses|] == responses;
  }

  ghost function Repeat(n: nat, round: nat): (r: seq<nat>)
    ensures |r| == n && forall k | 0 <= k < n :: r[k] == round
  {
    seq(n, _ => round)
  }

  lemma RoundsOneMore(responses: seq<ProviderResponse>, response: ProviderResponse)
    ensures Rounds(responses + [response]) == Rounds(responses) + Repeat(|response.ToolUseBlocks()|, |responses| + 1)
  {
    hide ToolUses, Repeat;
    assert (responses + [response])[..|responses|] == responses;
  }

  lemma HandledOneMore(
    responses: seq<ProviderResponse>, records: seq<ToolCallRecord>, response: ProviderResponse, batch: seq<ToolCallRecord>)
    requires Handled(responses, records) && ServesEach(response.ToolUseBlocks(), batch)
    requires forall k | 0 <= k < |batch| :: batch[k].iteration == |responses| + 1
    ensures Serviced(responses + [response], records + batch)
    ensures |batch| == |response.ToolUseBlocks()| ==> Handled(responses + [response], records + batch)
  {
    hide Serves, ToolUses, Requested, Rounds, Repeat;
    RequestedOneMore(responses, response);
    RoundsOneMore(responses, response);
  }

  /** The recorded calls were made in this order and came to these results. */
  ghost predicate Ran(hooks: seq<PromptHook>, execute: ToolExecutor, records: seq<ToolCallRecord>) {
    forall n | 0 <= n < |records| ::
      ToolAnswer(hooks, execute, n, records[n].toolName, records[n].args) == Ok(records[n].result)
  }

  /** The record and the message that one tool use leaves behind. */
  ghost predicate Answers(use: ContentBlock, message: ProviderMessage, record: ToolCallRecord) {
    && Serves(use, record)
    && IsResultFor(message, use) && Tells(message.content[0], record)
  }

  ghost predicate Answered(uses: seq<ContentBlock>, results: seq<ProviderMessage>, records: seq<ToolCallRecord>) {
    && |results| <= |uses| && |results| <= |records|
    && forall k | 0 <= k < |results| :: Answers(uses[k], results[k], records[k])
  }

  /** The books of a run: the streak has not reached its limit so far, and the result messages report the recorded calls in order. */
  ghost predicate Balanced(toolCalls: seq<ToolCallRecord>, messages: seq<ProviderMessage>, initial: nat, limit: nat) {
    && initial <= |messages|
    && NeverReached(toolCalls, limit)
    && Reported(toolCalls, ResultsOf(messages[initial..]))
  }

  /** How a run that the streak stopped looks: the limit is reached by the last call, which has no result message. */
  ghost predicate StoppedByStreak(toolCalls: seq<ToolCallRecord>, messages: seq<ProviderMessage>, initial: nat, limit: nat) {
    && initial <= |messages| && |toolCalls| > 0
    && NeverReached(toolCalls[..|toolCalls| - 1], limit)
    && Streak(toolCalls) >= limit
    && Reported(toolCalls[..|toolCalls| - 1], ResultsOf(messages[initial..]))
  }

  lemma BalancedOneMore(
    toolCalls: seq<ToolCallRecord>, messages: seq<ProviderMessage>, initial: nat, limit: nat,
    record: ToolCallRecord, message: ProviderMessage)
    requires Balanced(toolCalls, messages, initial, limit)
    ensures Streak(toolCalls + [record]) < limit && IsResultMessage(message) && Tells(message.content[0], record) ==>
              Balanced(toolCalls + [record], messages + [message], initial, limit)
    ensures Streak(toolCalls + [record]) >= limit ==> StoppedByStreak(toolCalls + [record], messages, initial, limit)
    ensures message.role == Assistant ==> Balanced(toolCalls, messages + [message], initial, limit)
  {
    hide Streak, ResultsOf, Tells;
    if Streak(toolCalls + [record]) < limit {
      NeverReachedOneMore(toolCalls, record, limit);
    }
    ResultsOneMore(messages[initial..], message);
    assert (messages + [message])[initial..] == messages[initial..] + [message];
    assert (toolCalls + [record])[..|toolCalls|] == toolCalls;
  }

  datatype ToolLoop = ToolLoop(maxIterations: nat, repeatedToolCallStreakLimit: nat) {

    static function New(maxIterations: nat): ToolLoop {
      WithLimits(maxIterations, DEFAULT_REPEATED_TOOL_CALL_STREAK_LIMIT)
    }

    static function WithLimits(maxIterations: nat, streakLimit: nat): (loop: ToolLoop)
      ensures loop.maxIterations <= maxIterations && loop.maxIterations <= TOOL_LOOP_HARD_CAP
      ensures loop.maxIterations in {maxIterations, TOOL_LOOP_HARD_CAP}
      ensures loop.repeatedToolCallStreakLimit >= 1 && loop.repeatedToolCallStreakLimit >= streakLimit
      ensures loop.repeatedToolCallStreakLimit in {streakLimit, 1}
    {
      ToolLoop(
        if maxIterations <= TOOL_LOOP_HARD_CAP then maxIterations else TOOL_LOOP_HARD_CAP,
        if streakLimit >= 1 then streakLimit else 1)
    }

    /** The hooks before the call, then the execution; errors that do not stop the run become failed results. */
    static method AskTool(hooks: seq<PromptHook>, execute: ToolExecutor, n: nat, name: string, input: Json)
      returns (answer: Result<ToolResult, LoopStopReason>)
      ensures answer == ToolAnswer(hooks, execute, n, name, input)
      ensures answer.Err? ==> !answer.error.Completed? && !answer.error.MaxIterations?
    {
      hide ClassifyExecuteError;
      assert hooks[0..] == hooks && hooks[|hooks|..] == [];
      for h := 0 to |hooks|
        invariant FirstBlock(hooks[h..], n, name, input) == FirstBlock(hooks, n, name, input)
      {
        assert hooks[h..][1..] == hooks[h + 1..];
        var decision := hooks[h](n, name, input);
        if decision.Block? {
          return Err(HookBlocked(decision.reason));
        }
      }
      match execute(n, name, input) {
        case Ok(result) =>
          return Ok(result);
        case Err(message) =>
          ClassifiedReasons(message);
          var stop := ClassifyExecuteError(message);
          if stop.Some? {
            return Err(stop.value);
          }
          return Ok(ToolResult(false, "", Some(message), []));
      }
    }

    /** Runs one tool use: hooks, execution, record, streak, result message. */
    method ExecuteToolBlock(
      toolUse: ContentBlock, messages: seq<ProviderMessage>, state: LoopState,
      hooks: seq<PromptHook>, execute: ToolExecutor, ghost initial: nat)
      returns (stop: Option<LoopStopReason>, extended: seq<ProviderMessage>, ghost record: ToolCallRecord)
      requires toolUse.ToolUse?
      requires state.Valid() && Balanced(state.toolCalls, messages, initial, repeatedToolCallStreakLimit)
      modifies state`toolCalls, state`attachments, state`repeatedToolCallStreak, state`lastToolCallSignature
      ensures state.Valid()
      ensures var answer := ToolAnswer(hooks, execute, |old(state.toolCalls)|, toolUse.name, toolUse.input);
              && (answer.Err? ==> stop == Some(answer.error) && state.toolCalls == old(state.toolCalls))
              && (answer.Ok? ==>
                    && record == ToolCallRecord(toolUse.name, toolUse.input, answer.value, state.iteration)
                    && state.toolCalls == old(state.toolCalls) + [record]
                    && (stop.Some? <==> Streak(state.toolCalls) >= repeatedToolCallStreakLimit))
      ensures state.toolCalls == old(state.toolCalls) || Serves(toolUse, record)
      ensures stop.None? ==>
                && state.toolCalls == old(state.toolCalls) + [record]
                && |extended| == |messages| + 1 && extended == messages + [extended[|messages|]]
                && Answers(toolUse, extended[|messages|], record)
                && Balanced(state.toolCalls, extended, initial, repeatedToolCallStreakLimit)
      ensures stop.Some? ==>
                && extended == messages && !stop.value.Completed? && !stop.value.MaxIterations?
                && (|| (state.toolCalls == old(state.toolCalls)
                        && Balanced(state.toolCalls, extended, initial, repeatedToolCallStreakLimit))
                    || (&& state.toolCalls == old(state.toolCalls) + [record]
                        && StoppedByStreak(state.toolCalls, extended, initial, repeatedToolCallStreakLimit)
                        && stop.value == StreakStop()))
    {
      hide Streak, Balanced, StoppedByStreak, ResultsOf, ToolAnswer;
      extended := messages;
      var id, name, input := toolUse.id, toolUse.name, toolUse.input;
      record := ToolCallRecord(name, input, ToolResult(false, "", None, []), 0);
      var answer := AskTool(hooks, execute, |state.toolCalls|, name, input);
      if answer.Err? {
        return Some(answer.error), extended, record;
      }
      var result := answer.value;

      ghost var before := state.toolCalls;
      var recorded := ToolCallRecord(name, input, result, state.iteration);
      var message := ToolResultMessage(id, FormatToolResultContent(result), !result.success);
      record := recorded;
      BalancedOneMore(before, messages, initial, repeatedToolCallStreakLimit, record, message);
      state.attachments := state.attachments + result.attachments;
      state.toolCalls := state.toolCalls + [recorded];
      assert state.toolCalls[..|state.toolCalls| - 1] == before;

      var reached := state.HasRepeatedToolCallStreak(name, input, result, repeatedToolCallStreakLimit);
      if reached {
        return Some(StreakStop()), extended, record;
      }
      extended := messages + [message];
      stop := None;
    }

    /** Runs the tool uses of one response. The ghost results are the messages added and the calls recorded. */
    method ExecuteToolBlocks(
      response: ProviderResponse, messages: seq<ProviderMessage>, state: LoopState,
      hooks: seq<PromptHook>, execute: ToolExecutor, ghost initial: nat)
      returns (outcome: ToolBatchOutcome, extended: seq<ProviderMessage>,
               ghost results: seq<ProviderMessage>, ghost records: seq<ToolCallRecord>)
      requires state.Valid() && Balanced(state.toolCalls, messages, initial, repeatedToolCallStreakLimit)
      requires Ran(hooks, execute, state.toolCalls)
      modifies state`toolCalls, state`attachments, state`repeatedToolCallStreak, state`lastToolCallSignature
      ensures state.Valid() && Ran(hooks, execute, state.toolCalls)
      ensures forall k | 0 <= k < |records| :: records[k].iteration == state.iteration
      ensures extended == messages + results && state.toolCalls == old(state.toolCalls) + records
      ensures Answered(response.ToolUseBlocks(), results, records) && ServesEach(response.ToolUseBlocks(), records)
      ensures outcome.Proceed? ==>
                && |results| == |records| == |response.ToolUseBlocks()|
                && Balanced(state.toolCalls, extended, initial, repeatedToolCallStreakLimit)
      ensures outcome.Stop? ==>
                && !outcome.reason.Completed? && !outcome.reason.MaxIterations?
                && (|| (&& Balanced(state.toolCalls, extended, initial, repeatedToolCallStreakLimit)
                        && |results| == |records| < |response.ToolUseBlocks()|
                        && Refused(hooks, execute, |state.toolCalls|, response.ToolUseBlocks()[|records|], outcome.reason))
                    || (&& StoppedByStreak(state.toolCalls, extended, initial, repeatedToolCallStreakLimit)
                        && |results| + 1 == |records|
                        && outcome.reason == StreakStop()))
    {
      hide Balanced, StoppedByStreak, Answers, LoopState.Valid, ToolUses, ToolAnswer, Streak;
      var toolBlocks := response.ToolUseBlocks();
      extended, results, records := messages, [], [];
      ToolUsesMembers(response.contentBlocks);
      for k := 0 to |toolBlocks|
        invariant state.Valid()
        invariant extended == messages + results && state.toolCalls == old(state.toolCalls) + records
        invariant Ran(hooks, execute, state.toolCalls)
        invariant forall j | 0 <= j < |records| :: records[j].iteration == state.iteration
        invariant |results| == |records| == k && Answered(toolBlocks, results, records) && ServesEach(toolBlocks, records)
        invariant Balanced(state.toolCalls, extended, initial, repeatedToolCallStreakLimit)
      {
        assert toolBlocks[k] in toolBlocks;
        var stop;
        ghost var record;
        ghost var before := extended;
        stop, extended, record := ExecuteToolBlock(toolBlocks[k], extended, state, hooks, execute, initial);
        if stop.Some? {
          if state.toolCalls != old(state.toolCalls) + records {
            records := records + [record];
          }
          return Stop(stop.value), extended, results, records;
        }
        results := results + [extended[|before|]];
        records := records + [record];
      }
      outcome := Proceed;
    }

    /** The batch for a response just received: it makes a whole turn, or ends the run. */
    method AnswerToolUses(
      response: ProviderResponse, messages: seq<ProviderMessage>, state: LoopState, ghost s: Setting, ghost h: History,
      hooks: seq<PromptHook>, execute: ToolExecutor)
      returns (outcome: ToolBatchOutcome, extended: seq<ProviderMessage>, ghost after: History)
      requires hooks == s.hooks && execute == s.execute && repeatedToolCallStreakLimit == s.limit
      requires Conversing(s, h) && s.provider(|h.responses|, h.messages) == Ok(response) && response.HasToolUse()
      requires state.Valid() && h.records == state.toolCalls && messages == h.messages + [response.ToAssistantMessage()]
      requires state.iteration == |h.responses| + 1 <= s.maxIterations
      modifies state`toolCalls, state`attachments, state`repeatedToolCallStreak, state`lastToolCallSignature
      ensures state.Valid() && after.records == state.toolCalls && after.messages == extended
      ensures after.calls == h.calls + [h.messages] && after.responses == h.responses + [response]
      ensures if outcome.Proceed? then Conversing(s, after) else Explains(s, after, outcome.reason)
    {
      hide LoopState.Valid, Conversing, Explains, ProperCalls, Ran, Balanced, StoppedByStreak, Answered, ServesEach, Refused,
           ToolUses, StreakStop, ProviderResponse.HasToolUse, ProviderResponse.ToAssistantMessage;
      Hears(s, h, response);
      ghost var results, batch;
      outcome, extended, results, batch := ExecuteToolBlocks(response, messages, state, hooks, execute, |s.initial|);
      after := Batched(Heard(h, response), results, batch);
      if outcome.Stop? {
        Breaks(s, h, response, results, batch, outcome.reason);
      } else {
        Turns(s, h, response, results, batch);
      }
    }

    /** `run`. The ghost result is what happened: provider calls, responses, recorded calls, messages at the end. */
    method Run(
      history: seq<ProviderMessage>, userMessage: string, imageContent: seq<ContentBlock>,
      provider: Provider, execute: ToolExecutor, hooks: seq<PromptHook>)
      returns (r: Result<ToolLoopResult, string>, ghost h: History)
      requires repeatedToolCallStreakLimit >= 1
      ensures |h.calls| <= maxIterations
      ensures r.Ok? ==> WithinLimits(r.value, maxIterations, repeatedToolCallStreakLimit)
      ensures var s := Setting(provider, execute, hooks, BuildInitialMessages(history, userMessage, imageContent),
                               maxIterations, repeatedToolCallStreakLimit);
              match r
              case Ok(result) => Concludes(s, h, result)
              case Err(message) =>
                && Asking(s, h)
                && provider(|h.responses|, h.messages) == Err(message) && ClassifyExecuteError(message).None?
    {
      hide BuildInitialMessages, LoopState.Valid, Conversing, Explains, Concludes, WithinLimits, Asking, ProperCalls, Ran, Balanced,
           StoppedByStreak, Answered, ServesEach, Refused, ToolUses, ClassifyExecuteError, TokensOf, StreakStop, AttachmentsOf, FinalText,
           ProviderResponse.HasToolUse, ProviderResponse.ToAssistantMessage, ProviderResponse.TotalTokens;
      var messages := BuildInitialMessages(history, userMessage, imageContent);
      ghost var s := Setting(provider, execute, hooks, messages, maxIterations, repeatedToolCallStreakLimit);
      var state := new LoopState();
      h := History([], [], [], messages);
      Starts(s);
      while true
        invariant state.Valid() && h.messages == messages && h.records == state.toolCalls
        invariant |h.calls| == |h.responses| == state.iteration <= maxIterations
        invariant Conversing(s, h)
        invariant state.TokensUsed() == TokensOf(h.responses) && (!state.hasTokenInfo ==> state.totalTokens == 0)
        decreases maxIterations - state.iteration
      {
        if state.iteration >= maxIterations {
          EndsAtLimit(s, h);
          var result := BuildResult(messages, state, MaxIterations, s, h);
          return Ok(result), h;
        }
        var answer := provider(state.iteration, messages);
        if answer.Err? {
          Asks(s, h);
          h := h.(calls := h.calls + [messages]);
          var stop := ClassifyExecuteError(answer.error);
          if stop.Some? {
            EndsByProvider(s, h, answer.error);
            var result := BuildResult(messages, state, stop.value, s, h);
            return Ok(result), h;
          }
          return Err(answer.error), h;
        }
        var response := answer.value;
        if response.TotalTokens().Some? {
          state.totalTokens := state.totalTokens + response.TotalTokens().value;
          state.hasTokenInfo := true;
        }
        TokensOneMore(h.responses, response);
        messages := messages + [response.ToAssistantMessage()];
        state.iteration := state.iteration + 1;

        if response.HasToolUse() {
          var outcome;
          outcome, messages, h := AnswerToolUses(response, messages, state, s, h, hooks, execute);
          if outcome.Stop? {
            var result := BuildResult(messages, state, outcome.reason, s, h);
            return Ok(result), h;
          }
        } else {
          EndsWithText(s, h, response);
          h := Heard(h, response);
          var result := BuildResult(messages, state, Completed, s, h);
          return Ok(result), h;
        }
      }
    }
  }

  // ---- what happens in a run ----

  /** All that a run depends on. */
  datatype Setting = Setting(
    provider: Provider, execute: ToolExecutor, hooks: seq<PromptHook>, initial: seq<ProviderMessage>,
    maxIterations: nat, limit: nat)

  /** The messages of each provider call, the responses, the recorded tool calls and the messages at this point. */
  datatype History = History(
    calls: seq<seq<ProviderMessage>>, responses: seq<ProviderResponse>, records: seq<ToolCallRecord>,
    messages: seq<ProviderMessage>)

  /** A whole turn was added: the response as it came, and as many messages as it has tool uses. */
  ghost predicate AddsTurn(before: seq<ProviderMessage>, response: ProviderResponse, after: seq<ProviderMessage>) {
    && before + [response.ToAssistantMessage()] <= after
    && |after| == |before| + 1 + |response.ToolUseBlocks()|
  }

  /** The first provider call sees the initial messages, each later one the messages of the one before and a whole turn. */
  ghost predicate ProperCalls(s: Setting, h: History) {
    && |h.responses| <= |h.calls| <= |h.responses| + 1
    && (|h.calls| > 0 ==> h.calls[0] == s.initial)
    && (forall n | 0 <= n < |h.calls| :: s.initial <= h.calls[n] && Paired(h.calls[n][|s.initial|..]))
    && (forall n | 0 < n < |h.calls| :: AddsTurn(h.calls[n - 1], h.responses[n - 1], h.calls[n]))
    && forall n | 0 <= n < |h.responses| :: s.provider(n, h.calls[n]) == Ok(h.responses[n])
  }

  /** Between turns: the messages are the initial ones and whole turns, the last one for the last response. */
  ghost predicate Talked(s: Setting, h: History) {
    && ProperCalls(s, h) && |h.calls| == |h.responses|
    && s.initial <= h.messages && Paired(h.messages[|s.initial|..])
    && var n := |h.calls|;
       if n == 0 then h.messages == s.initial else AddsTurn(h.calls[n - 1], h.responses[n - 1], h.messages)
  }

  /** Each tool use of the responses has been run once, in order, recorded and reported. */
  ghost predicate Settled(s: Setting, h: History) {
    && Handled(h.responses, h.records) && Ran(s.hooks, s.execute, h.records)
    && Balanced(h.records, h.messages, |s.initial|, s.limit)
  }

  ghost predicate Conversing(s: Setting, h: History) {
    Talked(s, h) && Settled(s, h)
  }

  /** The provider has been called and has not responded. */
  ghost predicate Asking(s: Setting, h: History) {
    && ProperCalls(s, h) && |h.calls| == |h.responses| + 1 && h.messages == h.calls[|h.responses|]
    && Settled(s, h)
  }

  /** The batch of the last response did not get to its end: its first tool uses are answered, in order. */
  ghost predicate BrokenBatch(h: History) {
    && |h.calls| == |h.responses| > 0
    && var n := |h.responses| - 1;
       var earlier := |Requested(h.responses[..n])|;
       && earlier <= |h.records| && h.calls[n] + [h.responses[n].ToAssistantMessage()] <= h.messages
       && Answered(h.responses[n].ToolUseBlocks(), h.messages[|h.calls[n]| + 1..], h.records[earlier..])
  }

  /** A hook or an error kept the next tool use from being recorded; all before it are recorded and reported. */
  ghost predicate StoppedByTool(s: Setting, h: History, reason: LoopStopReason) {
    && BrokenBatch(h) && Balanced(h.records, h.messages, |s.initial|, s.limit)
    && |h.records| < |Requested(h.responses)|
    && Refused(s.hooks, s.execute, |h.records|, Requested(h.responses)[|h.records|], reason)
  }

  /** The call recorded last, which is not reported, brought the streak to its limit. */
  ghost predicate StoppedAtLimit(s: Setting, h: History, reason: LoopStopReason) {
    reason == StreakStop() && BrokenBatch(h) && StoppedByStreak(h.records, h.messages, |s.initial|, s.limit)
  }

  /** Why a run stops, and where it stands then. */
  ghost predicate StopsFor(s: Setting, h: History, reason: LoopStopReason) {
    match reason
    case MaxIterations => Conversing(s, h) && |h.responses| == s.maxIterations
    case Completed =>
      && Settled(s, h) && |h.calls| == |h.responses| > 0
      && var last := h.responses[|h.responses| - 1];
         last.ToolUseBlocks() == [] && h.messages == h.calls[|h.responses| - 1] + [last.ToAssistantMessage()]
    case _ =>
      || StoppedByTool(s, h, reason)
      || StoppedAtLimit(s, h, reason)
      || (&& Asking(s, h)
          && var answer := s.provider(|h.responses|, h.messages);
             answer.Err? && ClassifyExecuteError(answer.error) == Some(reason))
  }

  ghost predicate Explains(s: Setting, h: History, reason: LoopStopReason) {
    && ProperCalls(s, h) && |h.responses| <= s.maxIterations
    && Serviced(h.responses, h.records) && Ran(s.hooks, s.execute, h.records)
    && StopsFor(s, h, reason)
  }

  /** What the result says of the limits: the loop ends by the iteration limit only there, and by a streak when it is reached. */
  ghost predicate WithinLimits(r: ToolLoopResult, maxIterations: nat, limit: nat) {
    && r.iterations <= maxIterations && (r.stopReason == MaxIterations ==> r.iterations == maxIterations)
    && r.attachments == AttachmentsOf(r.toolCalls)
    && (|| NeverReached(r.toolCalls, limit)
        || (&& |r.toolCalls| > 0 && NeverReached(r.toolCalls[..|r.toolCalls| - 1], limit) && Streak(r.toolCalls) >= limit
            && r.stopReason == HookBlocked("repeated_identical_tool_call")))
  }

  /** The result tells what happened. */
  ghost predicate Concludes(s: Setting, h: History, r: ToolLoopResult) {
    && Explains(s, h, r.stopReason)
    && r.toolCalls == h.records && r.attachments == AttachmentsOf(h.records)
    && r.iterations == |h.responses| && r.tokensUsed == TokensOf(h.responses)
    && r.finalText == FinalText(h.messages, h.records)
  }

  /** The streak stop comes exactly when some run of identical calls reaches the limit, and with the call that reaches it. */
  lemma StreakStopIsExact(s: Setting, h: History, reason: LoopStopReason)
    requires Explains(s, h, reason)
    ensures (exists n :: 0 <= n <= |h.records| && Streak(h.records[..n]) >= s.limit) <==>
            reason == StreakStop() && StoppedByStreak(h.records, h.messages, |s.initial|, s.limit)
    ensures forall n | 0 <= n < |h.records| :: Streak(h.records[..n]) < s.limit
  {
    hide Streak, ProperCalls, Serviced, Ran, Talked, BrokenBatch, Handled, Reported, ResultsOf, Refused;
    BooksOrStreak(s, h, reason);
    assert h.records[..|h.records|] == h.records;
    if !NeverReached(h.records, s.limit) {
      var before := h.records[..|h.records| - 1];
      forall n | 0 <= n < |h.records| ensures Streak(h.records[..n]) < s.limit {
        assert before[..n] == h.records[..n];
      }
    }
  }

  lemma BooksOrStreak(s: Setting, h: History, reason: LoopStopReason)
    requires Explains(s, h, reason)
    ensures || Balanced(h.records, h.messages, |s.initial|, s.limit)
            || (reason == StreakStop() && StoppedByStreak(h.records, h.messages, |s.initial|, s.limit))
  {
    hide Balanced, StoppedByStreak, ProperCalls, Serviced, Ran, Talked, BrokenBatch, Handled, Refused;
  }

  // ---- the turns of the loop ----

  ghost function Heard(h: History, response: ProviderResponse): History {
    History(h.calls + [h.messages], h.responses + [response], h.records, h.messages + [response.ToAssistantMessage()])
  }

  ghost function Batched(h: History, results: seq<ProviderMessage>, batch: seq<ToolCallRecord>): History {
    h.(records := h.records + batch, messages := h.messages + results)
  }

  lemma Starts(s: Setting)
    requires s.limit >= 1
    ensures Conversing(s, History([], [], [], s.initial)) && TokensOf([]) == None
  {
    StartsBalanced(s.initial, s.limit);
  }

  lemma EndsAtLimit(s: Setting, h: History)
    requires Conversing(s, h) && |h.responses| == s.maxIterations
    ensures Explains(s, h, MaxIterations)
  {
    hide ProperCalls, Serviced, Ran, Balanced;
  }

  lemma Asks(s: Setting, h: History)
    requires Conversing(s, h)
    ensures Asking(s, h.(calls := h.calls + [h.messages]))
  {
    hide Paired, AddsTurn, Settled;
    var asking := h.(calls := h.calls + [h.messages]);
    assert Settled(s, asking) by { SettledIgnoresCalls(s, h, asking); }
  }

  lemma SettledIgnoresCalls(s: Setting, h: History, other: History)
    requires Settled(s, h) && other == h.(calls := other.calls)
    ensures Settled(s, other)
  {
  }

  lemma EndsByProvider(s: Setting, h: History, message: string)
    requires Asking(s, h) && |h.responses| <= s.maxIterations
    requires s.provider(|h.responses|, h.messages) == Err(message) && ClassifyExecuteError(message).Some?
    ensures Explains(s, h, ClassifyExecuteError(message).value)
  {
    hide ProperCalls, Serviced, Ran, Balanced, ClassifyExecuteError;
    ClassifiedReasons(message);
  }

  /** The response is in: the books are still right, as it is not a result. */
  lemma Hears(s: Setting, h: History, response: ProviderResponse)
    requires Conversing(s, h) && s.provider(|h.responses|, h.messages) == Ok(response)
    ensures ProperCalls(s, Heard(h, response))
    ensures Ran(s.hooks, s.execute, h.records)
    ensures Balanced(h.records, h.messages + [response.ToAssistantMessage()], |s.initial|, s.limit)
  {
    hide Balanced, Paired, AddsTurn, Handled, Ran;
    BalancedOneMore(h.records, h.messages, |s.initial|, s.limit,
                    ToolCallRecord("", Null, ToolResult(false, "", None, []), 0), response.ToAssistantMessage());
  }

  lemma TokensOneMore(responses: seq<ProviderResponse>, response: ProviderResponse)
    ensures TokensOf(responses + [response]) == match (TokensOf(responses), response.TotalTokens())
                                                case (Some(a), Some(b)) => Some(a + b)
                                                case (Some(a), None) => Some(a)
                                                case (None, b) => b
  {
    assert (responses + [response])[..|responses|] == responses;
  }

  /** A batch that got to its end makes a whole turn. */
  lemma Turns(s: Setting, h: History, response: ProviderResponse, results: seq<ProviderMessage>, batch: seq<ToolCallRecord>)
    requires Conversing(s, h) && ProperCalls(s, Heard(h, response))
    requires response.HasToolUse() && |results| == |batch| == |response.ToolUseBlocks()|
    requires Answered(response.ToolUseBlocks(), results, batch) && ServesEach(response.ToolUseBlocks(), batch)
    requires forall k | 0 <= k < |batch| :: batch[k].iteration == |h.responses| + 1
    requires Ran(s.hooks, s.execute, h.records + batch)
    requires Balanced(h.records + batch, h.messages + [response.ToAssistantMessage()] + results, |s.initial|, s.limit)
    ensures Conversing(s, Batched(Heard(h, response), results, batch))
  {
    hide Balanced, Paired, Answered, IsTurn, ToolUses, ProperCalls, Handled, Ran, ServesEach;
    var turn := [response.ToAssistantMessage()] + results;
    TurnFollows(response, results, batch);
    PairedThenTurn(h.messages[|s.initial|..], turn);
    assert h.messages + [response.ToAssistantMessage()] + results == h.messages + turn;
    assert (h.messages + turn)[|s.initial|..] == h.messages[|s.initial|..] + turn;
    HandledOneMore(h.responses, h.records, response, batch);
    ProperCallsOnly(s, Heard(h, response), Batched(Heard(h, response), results, batch));
  }

  lemma ProperCallsOnly(s: Setting, h: History, other: History)
    requires ProperCalls(s, h) && other.calls == h.calls && other.responses == h.responses
    ensures ProperCalls(s, other)
  {
  }

  /** A batch that a tool use or the streak broke off ends the run. */
  lemma Breaks(
    s: Setting, h: History, response: ProviderResponse, results: seq<ProviderMessage>, batch: seq<ToolCallRecord>,
    reason: LoopStopReason)
    requires Conversing(s, h) && ProperCalls(s, Heard(h, response)) && |h.responses| < s.maxIterations
    requires Answered(response.ToolUseBlocks(), results, batch) && ServesEach(response.ToolUseBlocks(), batch)
    requires forall k | 0 <= k < |batch| :: batch[k].iteration == |h.responses| + 1
    requires Ran(s.hooks, s.execute, h.records + batch)
    requires !reason.Completed? && !reason.MaxIterations?
    requires var messages := h.messages + [response.ToAssistantMessage()] + results;
             || (&& Balanced(h.records + batch, messages, |s.initial|, s.limit)
                 && |batch| < |response.ToolUseBlocks()|
                 && Refused(s.hooks, s.execute, |h.records + batch|, response.ToolUseBlocks()[|batch|], reason))
             || (StoppedByStreak(h.records + batch, messages, |s.initial|, s.limit) && reason == StreakStop())
    ensures Explains(s, Batched(Heard(h, response), results, batch), reason)
  {
    hide Balanced, StoppedByStreak, Paired, Answered, ToolUses, ProperCalls, Ran, ServesEach, Refused, Requested, Rounds, StreakStop;
    var after := Batched(Heard(h, response), results, batch);
    HandledOneMore(h.responses, h.records, response, batch);
    ProperCallsOnly(s, Heard(h, response), after);
    BreaksBatch(h, response, results, batch);
    RequestedOneMore(h.responses, response);
  }

  lemma BreaksBatch(h: History, response: ProviderResponse, results: seq<ProviderMessage>, batch: seq<ToolCallRecord>)
    requires |h.calls| == |h.responses| && |h.records| == |Requested(h.responses)|
    requires Answered(response.ToolUseBlocks(), results, batch)
    ensures BrokenBatch(Batched(Heard(h, response), results, batch))
  {
    hide Answered, ToolUses, Requested;
    var after := Batched(Heard(h, response), results, batch);
    assert after.responses[..|h.responses|] == h.responses;
    assert after.records[|h.records|..] == batch;
    assert after.messages[|h.messages| + 1..] == results;
  }

  /** A response without tool uses ends the run. */
  lemma EndsWithText(s: Setting, h: History, response: ProviderResponse)
    requires Conversing(s, h) && |h.responses| < s.maxIterations
    requires s.provider(|h.responses|, h.messages) == Ok(response) && !response.HasToolUse()
    ensures Explains(s, Heard(h, response), Completed)
  {
    hide Balanced, Paired, ToolUses, ProperCalls, Ran, Requested, Rounds, ServesEach;
    Hears(s, h, response);
    NoToolUses(response);
    NothingServed(response.ToolUseBlocks());
    HandledOneMore(h.responses, h.records, response, []);
    assert h.records + [] == h.records;
  }

  lemma NothingServed(uses: seq<ContentBlock>)
    ensures ServesEach(uses, [])
  {
  }

  /** The result that goes with a run that ends like this. */
  method BuildResult(
    messages: seq<ProviderMessage>, state: LoopState, stopReason: LoopStopReason, ghost s: Setting, ghost h: History)
    returns (r: ToolLoopResult)
    requires state.Valid() && state.iteration == |h.responses| && state.TokensUsed() == TokensOf(h.responses)
    requires state.toolCalls == h.records && messages == h.messages && Explains(s, h, stopReason)
    ensures Concludes(s, h, r) && r.stopReason == stopReason && WithinLimits(r, s.maxIterations, s.limit)
  {
    hide Explains, Balanced, StoppedByStreak, TokensOf, ExtractLastText, FallbackTextFromLastToolCall;
    var finalText := ExtractLastText(messages);
    if Blank(finalText) {
      var fallback := FallbackTextFromLastToolCall(state.toolCalls);
      finalText := if fallback.Some? then fallback.value else "";
    }
    r := ToolLoopResult(finalText, state.toolCalls, state.attachments, state.iteration, state.TokensUsed(), stopReason);
    StaysWithin(s, h, r);
  }

  lemma StaysWithin(s: Setting, h: History, r: ToolLoopResult)
    requires Concludes(s, h, r)
    ensures WithinLimits(r, s.maxIterations, s.limit)
  {
    hide Streak, ProperCalls, Serviced, Ran, Talked, BrokenBatch, Handled, Reported, ResultsOf, Refused, NeverReached;
    BooksOrStreak(s, h, r.stopReason);
  }

  function FinalText(messages: seq<ProviderMessage>, toolCalls: seq<ToolCallRecord>): string {
    var text := ExtractLastText(messages);
    if !Blank(text) then text
    else match FallbackTextFromLastToolCall(toolCalls) case Some(t) => t case None => ""
  }

  /** The sum over the responses that report both token counts, if any does. */
  ghost function TokensOf(responses: seq<ProviderResponse>): Option<nat> {
    if |responses| == 0 then None
    else
      match (TokensOf(responses[..|responses| - 1]), responses[|responses| - 1].TotalTokens())
      case (Some(a), Some(b)) => Some(a + b)
      case (Some(a), None) => Some(a)
      case (None, b) => b
  }

  lemma StartsBalanced(initial: seq<ProviderMessage>, limit: nat)
    requires limit >= 1
    ensures Balanced([], initial, |initial|, limit) && Paired(initial[|initial|..])
  {
    assert initial[|initial|..] == [];
  }

  lemma NoToolUses(response: ProviderResponse)
    requires !response.HasToolUse()
    ensures ToolUses(response.contentBlocks) == []
  {
    NoneAmong(response.contentBlocks);
  }

  lemma {:induction false} NoneAmong(blocks: seq<ContentBlock>)
    requires forall b | b in blocks :: !b.ToolUse?
    ensures ToolUses(blocks) == []
  {
    if |blocks| > 0 {
      NoneAmong(blocks[..|blocks| - 1]);
    }
  }

  lemma TurnFollows(response: ProviderResponse, results: seq<ProviderMessage>, records: seq<ToolCallRecord>)
    requires response.HasToolUse() && Answered(response.ToolUseBlocks(), results, records)
    requires |results| == |response.ToolUseBlocks()|
    ensures IsTurn([response.ToAssistantMessage()] + results)
  {
    hide ToolUses, FormatToolResultContent;
    ToolUsesMembers(response.contentBlocks);
    var b :| b in response.contentBlocks && b.ToolUse?;
    var uses := response.ToolUseBlocks();
    assert b in uses;
    var turn := [response.ToAssistantMessage()] + results;
    assert turn[0].content == response.contentBlocks;
    forall k | 0 <= k < |uses| ensures IsResultFor(turn[1 + k], uses[k]) {
      assert Answers(uses[k], results[k], records[k]);
    }
  }

  lemma ClassifiedReasons(message: string)
    ensures var stop := ClassifyExecuteError(message);
            stop.Some? ==> stop.value == RateLimited || stop.value == ApprovalDenied
  {
    hide ContainsIgnoreCase;
  }
}
