# Verified models of the agent's planner, text filters and tool loop

This project models the parts of the agent whose behaviour is hard to see from any single function, and proves what they
are for. `dafny verify dfyconfig.toml` checks all of it.

* **Planner.** A plan is a graph of steps. It is validated with a three-colour depth-first search, ordered with Kahn's
  algorithm over an ordered ready set, and executed step by step; a failed step prunes everything downstream of it. Proved:
  validation accepts exactly the well-formed acyclic graphs and reports the first cycle, which depends on the graph alone; the order is the lexicographically
  least of all topological orders, so it does not depend on how the graph was listed; no in-degree underflows and the
  "cycle while sorting" branch is dead; no step runs before all it depends on completed, in runs that end and in runs that the
  runner breaks off; and skipped means exactly "reachable from a failed step".
* **Secrets and untrusted text.** Scrubbing rewrites a text in 44 marker passes and one pass for PEM blocks. Proved: the
  separately written leak scanner finds nothing in any scrubbed text; each pass changes marked tokens (or closed PEM blocks) and
  nothing else; a text comes out unchanged exactly when it exposes nothing. Wrapped external content holds one open and one
  close marker, whatever source and text were given, and gives both back.
* **Tool loop and streams.** Proved for every provider, tool, hook and history: each provider call sees whole turns with one
  result per tool use, the loop is bounded, every record is what hooks and executor gave for the tool use requested, the streak
  detector stops the loop exactly at its limit, and every other stop has the cause it names. A collected stream depends on neither
  fragmentation nor interleaving, and replaying a response gives it back in normal form.
* **Text segmentation.** Chunking, tool-call extraction and event framing conserve their input, respect their bounds and do not
  depend on how the input was cut.

Conventions. Strings are sequences of characters; an id is a string, ordered as strings are. Step runner, provider, tool
executor, hooks, JSON parser and lossy UTF-8 decoding are arbitrary functions; those that may carry state also take the number
of the call, so that each call may answer differently. Code that changes things in place is a method over a class, a map or a
sequence; most of them are proved against a function or a declarative predicate, about which the lemmas are. `ghost`
out-parameters of methods give the history of a run (calls made, outcomes, messages at the end) so that contracts can speak of it.

One module per file: `DagContracts`, `Plans`, `PlanParsing`, `PlanExecution` (graph theory in `Digraphs`, `Lassos`, `Reachability`);
`Scrub`, `ScrubPatterns`, `ScrubEffects`, `LeakDetect`, `ExternalContent` (string search in `Text`, edits in `Cuts`);
`LlmTypes`, `Streaming`, `StreamLaws`, `ToolLoops`, `ToolLaws`, `FallbackTools`, `Sse`; `Chunker`, `ChunkPlans` (lines and
whitespace in `TextLines`, `Whitespace`).

One thing a reader may not expect, which the model keeps: before a paragraph that is too long for a chunk, a section with a heading
makes a chunk of the heading alone, and two of them when nothing had been gathered (src/memory/chunker.rs:51-74).

## Model

| member | source | states |
|---|---|---|
| `DagContracts.DagContract.Validate` | src/planner/dag_contract.rs:42-46 | accepts exactly the valid graphs; an error names the first thing that is wrong, and a cycle reported is the first cycle of the graph |
| `DagContracts.DagContract.ValidMeaning` | src/planner/dag_contract.rs:42-46 | valid means: ids non-blank and pairwise different, edges pairwise different and between known nodes, and no closed walk in the graph |
| `DagContracts.DagContract.DiagnosisIsUnique` | src/planner/dag_contract.rs:42-46 | a graph has at most one diagnosis, so the error is determined by the graph |
| `DagContracts.DagContract.ValidateNodes` | src/planner/dag_contract.rs:105-119 | accepts exactly non-blank, unique ids and returns them as a set; otherwise names the blank or repeated id |
| `DagContracts.DagContract.ValidateEdges` | src/planner/dag_contract.rs:121-158 | accepts exactly unique edges between known nodes and returns strictly ascending adjacency lists that hold just these edges; otherwise names the first such edge and why |
| `DagContracts.AdjacencyIsUnique` | src/planner/dag_contract.rs:152-155 | sorted adjacency lists depend on the graph alone, not on how its edges were listed |
| `Ids.SortAscends` | src/planner/dag_contract.rs:152-155 | sorting ascends, strictly where nothing is listed twice |
| `Ids.LessMeaning` | src/planner/dag_contract.rs:121-126 | ids are ordered by their first differing character, a proper prefix coming first |
| `DagContracts.ValidateCycleFree` | src/planner/dag_contract.rs:161-179 | succeeds if and only if the graph is acyclic; a failure reports the first cycle of the graph, a simple one |
| `DagContracts.CycleSearch.DetectCycle` | src/planner/dag_contract.rs:181-214 | terminates since every call colours a new node; without a cycle the node ends visited, the stack is restored and earlier colours are kept; with one, the path is the first cycle of the graph |
| `DagContracts.StackIsFirstLasso` | src/planner/dag_contract.rs:190-199 | the search path with its edge back is the lexicographically least walk of the graph that runs into itself |
| `Lassos.LassoIsLeast` | src/planner/dag_contract.rs:181-214 | such a walk is the least if all earlier turns lead where no such walk goes |
| `Lassos.NoLassoThrough` | src/planner/dag_contract.rs:211-213 | no such walk goes through a visited node, so skipping visited nodes loses no cycle |
| `Lassos.FirstCycleIsUnique` | src/planner/dag_contract.rs:181-214 | the first cycle is determined by the graph alone |
| `Lassos.FirstCycleIsCycle` | src/planner/dag_contract.rs:192-198 | the first cycle is a cycle of the graph and simple |
| `DagContracts.StackClosesCycle` | src/planner/dag_contract.rs:192-199 | a neighbour that is being visited is on the stack, so the two-element fallback path is never returned, and the stack from there on is a simple cycle |
| `DagContracts.StartVisit` | src/planner/dag_contract.rs:187-188 | marking and pushing a node keeps "visiting exactly when on the stack" and the stack a walk |
| `DagContracts.FinishVisit` | src/planner/dag_contract.rs:211-213 | once all neighbours are visited, popping the node keeps the finished nodes in an order in which edges point forward |
| `DagContracts.DagContract.TopologicalSort` | src/planner/dag_contract.rs:48-103 | succeeds exactly on valid graphs, then with the lexicographically least topological order of all nodes |
| `DagContracts.DagContract.CountDegrees` | src/planner/dag_contract.rs:51-69 | the counters start as the number of incoming edges of each node, and the adjacency lists hold just the edges |
| `DagContracts.ReleaseOne` | src/planner/dag_contract.rs:87-92 | each counter that is decremented is positive; afterwards it counts the incoming edges still pending and the queue gains the node exactly at zero |
| `DagContracts.ReleaseNeighbors` | src/planner/dag_contract.rs:86-96 | after all neighbours, every counter and the queue are those of the graph without the node |
| `DagContracts.SortFrom` | src/planner/dag_contract.rs:71-98 | on an acyclic graph the main loop lists every node once and yields the least topological order |
| `DagContracts.FinishKahn` | src/planner/dag_contract.rs:98-100 | an empty queue on an acyclic graph means that all nodes are listed: the error branch after the loop is dead |
| `DagContracts.NothingIsLeft` | src/planner/dag_contract.rs:98-100 | in an acyclic graph some node is ready as long as any is unlisted |
| `DagContracts.ListingOrderIsIrrelevant` | src/planner/dag_contract.rs:48-103 | two graphs that list the same nodes and edges in any order are both valid or both not, and sort to the same order |
| `DagContracts.SameCycleIsReported` | src/planner/dag_contract.rs:161-214 | two graphs that list the same nodes and edges in any order and have a cycle report the same cycle |
| `Digraphs.GreedyIsLeast` | src/planner/dag_contract.rs:82-96 | always taking the least ready node gives the lexicographically least topological order |
| `Digraphs.LeastOrderIsUnique` | src/planner/dag_contract.rs:48-103 | there is only one least topological order, so the result is determined by the graph alone |
| `Digraphs.AcyclicIffOrderable` | src/planner/dag_contract.rs:48-103 | the two algorithms decide the same question: a finite graph is acyclic if and only if it has a topological order |
| `Plans.Plan.New` | src/planner/types.rs:51-98 | accepts exactly valid graphs whose node ids are the pairwise different, non-blank step ids; every error is justified, with the exact missing and extra ids |
| `Plans.Plan.ExecutionOrder` | src/planner/types.rs:100-102 | the least topological order, exactly when the graph is valid |
| `Plans.IndexOfFindsSteps` | src/planner/types.rs:104-110 | the index has every step id and leads to a step with that id |
| `PlanParsing.Parse` | src/planner/parser.rs:49-80 | accepts exactly well-posed documents: some steps, different non-blank ids, dependencies on listed steps without repetition and in no circle; each step of the plan has the id, description, action and dependencies of the document's step at that place and is not started |
| `PlanParsing.WellPosedIsValid` | src/planner/parser.rs:51-79 | well-posed documents are exactly those whose steps and graph make a valid plan |
| `PlanParsing.EdgesAreDistinct` | src/planner/parser.rs:71-76 | an edge repeats exactly if some step repeats a dependency |
| `PlanParsing.EdgesComeFromDependencies` | src/planner/parser.rs:71-76 | the nested loops create an edge for each declared dependency and no other |
| `PlanParsing.DocumentMatchesGraph` | src/planner/parser.rs:55-78 | nodes are the step ids and edges the declared dependencies |
| `Reachability.AvoidingClosedSet` | src/planner/executor.rs:155-172 | when the skip set is closed under successors, not expanding its nodes again loses nothing: the search adds all that is reachable |
| `Reachability.ReachKeepsClosed` | src/planner/executor.rs:155-172 | adding what one more failure reaches keeps the skip set closed |
| `PlanExecution.MarkDownstreamSkipped` | src/planner/executor.rs:155-172 | for any skip set: adds exactly the nodes reached by one or more edges without passing through nodes already skipped |
| `PlanExecution.ReadyToRun` | src/planner/executor.rs:101-116 | a step that is not in the skip set, which is closed under successors, when its turn comes has only completed predecessors |
| `PlanExecution.PruneBelow` | src/planner/executor.rs:126-130 | after a failure the skip set is again exactly what the failures so far reach, closed under successors, and none of the steps already passed is in it |
| `PlanExecution.RunStep` | src/planner/executor.rs:114-129 | one call: the runner sees the step as running; its outcome, output and error are stored, and no other step changes |
| `PlanExecution.Execute` | src/planner/executor.rs:82-142 | for every plan that `Plan::new` accepts and every runner: steps not skipped are called once each in order, with all predecessors completed, and each call sees earlier steps as they are stored for good and later ones untouched; skipped steps only change their status; the report partitions the steps and matches the stored statuses, and skipped is exactly downstream of failed; a runner error leaves one step running, earlier ones settled, with the skipped ones exactly those below a failure, and later ones untouched; an invalid graph changes nothing |
| `PlanExecution.SkippedExactly` | src/planner/executor.rs:101-131 | at the end a step is skipped if and only if a failed step reaches it over one or more edges |
| `PlanExecution.RunIsReported` | src/planner/executor.rs:133-141 | the three lists are a partition of the plan and agree with the stored statuses; success means no step failed |
| `PlanExecution.SelectSplits` | src/planner/executor.rs:96-131 | completed, failed and skipped together hold each id of the order exactly once |
| `PlanExecution.PredecessorsAreDependencies` | src/planner/parser.rs:71-76 | completed predecessors are completed dependencies, each of which belongs to a stored step |
| `PlanExecution.FreshRunBrokenOff` | src/planner/executor.rs:114-116 | a run broken off by the runner leaves a parsed plan with exactly one running step, later steps pending and empty, earlier ones settled with the skipped ones exactly those below a failure, and every step that was called with all its dependencies stored as completed |
| `PlanExecution.PredecessorCompleted` | src/planner/executor.rs:101-131 | a predecessor of a step that no failure reaches comes before it in the order and completed |
| `PlanExecution.RanProperly` | src/planner/executor.rs:101-131 | at the end of a run, broken off or not, each step that was called has all its dependencies stored as completed |
| `PlanExecution.ParseAndExecute` | src/planner/executor.rs:82-142 | runs exactly the well-posed documents; each step handed to the runner is what the document asks for under that id, description, action and dependencies, and has all its dependencies completed at that moment and still stored as completed at the end, whether the run ends or is broken off |
| `Scrub.TokenEndIsMaximal` | src/llm/scrub.rs:9-19 | the token is the longest run of secret characters |
| `Scrub.FindTokenEnd` | src/llm/scrub.rs:9-19 | the loop finds that end |
| `Scrub.ScrubAfterMarker` | src/llm/scrub.rs:21-45 | terminates although the text may grow; gives the redacted text; reports a change exactly when the marker exposed a token |
| `Scrub.RedactMarkerIsClean` | src/llm/scrub.rs:21-45 | after its pass a marker is followed by token text nowhere, also where marker occurrences overlap or meet a label |
| `Scrub.RedactMarkerKeepsClean` | src/llm/scrub.rs:38-42 | redacting one marker never recreates an exposed occurrence of another |
| `Scrub.RedactMarkerUnchanged` | src/llm/scrub.rs:21-45 | a pass leaves the text as it is if and only if the marker exposes nothing |
| `ScrubEffects.OnlyTokensChange` | src/llm/scrub.rs:21-45 | a pass replaces stretches that are the marker with its whole token, and keeps all other text in place |
| `Scrub.PemBlockEndMeaning` | src/llm/scrub.rs:60-86 | a block has an end if and only if a non-empty kind ends at the first dashes and an end line of that kind follows; it then ends behind the first such end line and one line break after it |
| `Scrub.ScrubPemBlocks` | src/llm/scrub.rs:47-95 | terminates and gives the text with closed blocks replaced |
| `Scrub.RedactPemKeepsClean` | src/llm/scrub.rs:88-91 | replacing PEM blocks never recreates an exposed marker |
| `ScrubEffects.ClosedBlockIsBlock` | src/llm/scrub.rs:60-86 | what is replaced is a begin line with a kind, any text, the end line of the same kind and at most one line break |
| `ScrubEffects.BlocksAreFound` | src/llm/scrub.rs:54-86 | a block is found at a place exactly where the text from there on reads: begin line, a kind up to the first dashes, any text, the end line of that kind |
| `ScrubEffects.OnlyBlocksChange` | src/llm/scrub.rs:47-95 | the pass replaces whole blocks and keeps all other text in place |
| `ScrubEffects.RedactPemUnchanged` | src/llm/scrub.rs:47-95 | the pass changes a text if and only if it has such a block somewhere |
| `ScrubPatterns.PrefixPatternsAreGood` | src/llm/scrub.rs:155-178 | every prefix has the shape the argument needs: no label can be part of it or of its end |
| `ScrubPatterns.MarkerPatternsAreGood` | src/llm/scrub.rs:180-204 | the same for every header, query and JSON marker |
| `Scrub.ScrubSecretPatterns` | src/llm/scrub.rs:154-226 | the early exit and the three loops give the scrubbed text |
| `Scrub.ScrubbedIsClean` | src/llm/scrub.rs:154-226 | for every text and each of the 44 markers: none is followed by token text in the result |
| `ScrubEffects.ScrubbedUnchanged` | src/llm/scrub.rs:154-226 | a text comes out unchanged if and only if no marker exposes a token in it and it has no block with a begin line, a kind and the end line of that kind |
| `ScrubEffects.ScrubbedInPasses` | src/llm/scrub.rs:206-225 | scrubbing is one pass for each marker in list order and one for PEM blocks, each of which replaces marked tokens or blocks and keeps all other text in place |
| `LeakDetect.ScanPlain` | src/llm/leak_detect.rs:82-99 | appends the leaks found for every prefix in order and keeps those already listed |
| `LeakDetect.LeaksFromIsExact` | src/llm/leak_detect.rs:85-97 | for one prefix the scanner finds nothing if and only if no occurrence, overlapping ones included, has a token of eight more characters |
| `LeakDetect.LeaksFromMeaning` | src/llm/leak_detect.rs:85-97 | each leak has the kind of the prefix and its longest token, shortened, at a place where it is long enough; the places come in order without overlap, and any other such place overlaps one of them |
| `LeakDetect.TokenIsLongest` | src/llm/leak_detect.rs:76-80 | the token is the longest run of token characters |
| `LeakDetect.LeaksOfAllConcat` | src/llm/leak_detect.rs:82-99 | the leaks are those of each prefix in turn |
| `LeakDetect.LeaksOfAllIsExact` | src/llm/leak_detect.rs:82-99 | the same for a list of prefixes |
| `LeakDetect.TokenCharsAreSecretChars` | src/llm/leak_detect.rs:72-74 | the two separately written character classes are the same |
| `LeakDetect.ScrubbedTextHasNoLeaks` | src/llm/leak_detect.rs:25-99 | the plain scan of any scrubbed text finds nothing |
| `ExternalContent.SanitizeSource` | src/security/external_content.rs:64-79 | the loop and the trimming give the label |
| `ExternalContent.SafeSourceIsSafe` | src/security/external_content.rs:64-79 | the label is never empty, has only lower-case letters, digits, `-` and `_`, and no `_` at its ends |
| `ExternalContent.SafeSourceMeaning` | src/security/external_content.rs:64-79 | the label stands, character by character, for the trimmed source without what becomes `_` at its ends, capitals made small; the default stands for nothing left |
| `ExternalContent.SafeSourceIsIdempotent` | src/security/external_content.rs:64-79 | a sanitized label is left as it is |
| `ExternalContent.SanitizedIsFree` | src/security/external_content.rs:87-90 | sanitized text holds neither marker; the second replacement does not bring the first back |
| `ExternalContent.SanitizeMeaning` | src/security/external_content.rs:87-90 | all occurrences of the open prefix, then of the close marker, are replaced, and all other text stays in place |
| `ExternalContent.SanitizeUnchanged` | src/security/external_content.rs:87-90 | sanitizing leaves a text as it is if and only if it holds neither marker |
| `ExternalContent.SanitizeIsIdempotent` | src/security/external_content.rs:87-90 | sanitizing twice equals sanitizing once |
| `ExternalContent.WrapHasOneFrame` | src/security/external_content.rs:81-85 | for every source and text the open prefix occurs at position 0 only and the close marker at the very end only |
| `ExternalContent.UnwrapGivesBack` | src/security/external_content.rs:81-85 | stripping the frame gives back the label and the sanitized text |
| `Text.ReplaceAllRemoves` | src/security/external_content.rs:88-89 | replacing all occurrences removes a pattern that the replacement cannot help to form |
| `Text.ReplaceAllKeepsAbsent` | src/security/external_content.rs:88-89 | and brings in no other pattern of that kind |
| `Streaming.StreamCollector.Feed` | src/llm/streaming.rs:187-241 | the fields are those of the events fed so far: text, builder per index, completed calls, last start, last done |
| `Streaming.StreamCollector.Finish` | src/llm/streaming.rs:243-286 | the response that the events fed stand for; builders without id, name or valid JSON are dropped |
| `StreamLaws.ResponseMeaning` | src/llm/streaming.rs:243-286 | the blocks are the text if any, the completed calls, then the calls that deltas give, in index order and none left out |
| `StreamLaws.AssembleMeaning` | src/llm/streaming.rs:244-269 | an index gives a tool use exactly if its last id and last name are not empty and its JSON pieces joined parse, and then with just these |
| `StreamLaws.BuilderMeaning` | src/llm/streaming.rs:195-219 | a builder has the last id and the last name given for its index and all JSON pieces in order |
| `Streaming.SameResponse` | src/llm/streaming.rs:187-286 | streams that agree on text, builders, completed calls, last start and last done give the same response |
| `Streaming.SameDeltasSaySame` | src/llm/streaming.rs:187-286 | for the builders it is enough that the deltas for each index are the same, wherever they stand |
| `Streaming.TextFragments` | src/llm/streaming.rs:192-194 | cutting a text delta anywhere in a stream does not change the response |
| `Streaming.DeltaFragments` | src/llm/streaming.rs:195-219 | cutting the JSON of a tool-call delta anywhere does not change the response |
| `Streaming.InterleavingIsIrrelevant` | src/llm/streaming.rs:187-286 | swapping neighbouring events that concern different parts does not change the response |
| `Streaming.RespToEvents` | src/llm/streaming.rs:289-319 | start, text if any, one complete event per tool use in order, done |
| `StreamLaws.EventsMeaning` | src/llm/streaming.rs:289-319 | event by event: the model, the text if any, id, name and input of each tool use in order, stop reason and token counts |
| `Streaming.RoundTrip` | src/llm/streaming.rs:187-319 | replaying a response gives it back with the same text, model, tokens and stop reason, and its blocks as an optional text block and the tool uses |
| `Streaming.NormalizeIsIdempotent` | src/llm/streaming.rs:243-319 | a second round trip changes nothing |
| `LlmTypes.ToolUsesInOrder` | src/llm/types.rs:99-110 | the tool-use blocks are all those blocks of the response, each once and in the same order |
| `ToolLaws.AssistantMessage` | src/llm/types.rs:112-124 | the message has the response's blocks, or its text where it has none |
| `ToolLoops.ToolLoop.WithLimits` | src/agent/tool_loop.rs:161-171 | the smaller of the request and 25 iterations, and a streak limit of at least 1 |
| `ToolLoops.ToolLoop.Run` | src/agent/tool_loop.rs:178-265 | terminates after at most the allowed number of provider calls; the first call sees the initial messages, each later one those before it and a whole turn, in which one result per tool use answers in block order with matching id; the n-th record is the n-th tool use requested, with its iteration and with the result that hooks and executor give, and is reported in order; each stop reason has its cause: an answer without tool uses or the iteration limit, all tool uses then being recorded, a hook or classified error at the next tool use, a classified provider error, or the streak limit, reached by the last call, which alone is not reported; final text, tokens and attachments are those of the run; other provider errors are passed on |
| `ToolLoops.ToolLoop.AnswerToolUses` | src/agent/tool_loop.rs:241-257 | the batch for a response makes a whole turn, or ends the run for a cause that it has |
| `ToolLoops.StreakStopIsExact` | src/agent/tool_loop.rs:312-334 | a run ends by the streak stop if and only if some run of identical calls reached the limit, and then at the call that reached it |
| `ToolLoops.ToolLoop.ExecuteToolBlocks` | src/agent/tool_loop.rs:268-338 | answers the tool uses in block order, one record and one message each, with the results that hooks and executor give, until all are answered, or the next one is refused for the reason returned, or the streak limit is reached by a record without message |
| `ToolLoops.ToolLoop.ExecuteToolBlock` | src/agent/tool_loop.rs:279-334 | one tool use: a hook or a classified error stops without a record; otherwise one record, and a message unless and only unless the streak limit is reached |
| `ToolLoops.ToolLoop.AskTool` | src/agent/tool_loop.rs:284-306 | the first blocking hook decides; other errors become failed results |
| `ToolLaws.AnswerMeaning` | src/agent/tool_loop.rs:284-306 | a result is what the executor gave, no hook having blocked the call, or a failed one that carries an error which stops nothing |
| `ToolLaws.RefusalMeaning` | src/agent/tool_loop.rs:284-299 | a refusal is that of the first hook that blocks, or of an error that stops the run |
| `ToolLaws.ClassifyMeaning` | src/agent/tool_loop.rs:438-460 | rate limits are recognized before missing approvals, by their phrases in capitals or not; nothing else stops a run |
| `ToolLoops.LoopState.HasRepeatedToolCallStreak` | src/agent/tool_loop.rs:483-503 | the counter is the streak of the recorded calls, and the answer says whether it has reached the limit |
| `ToolLoops.StreakIsLongest` | src/agent/tool_loop.rs:483-503 | the streak is the length of the longest suffix of calls with the signature of the last |
| `ToolLaws.SignatureMeaning` | src/agent/tool_loop.rs:121-145 | calls count as identical if tool, arguments, success, output and error are the same |
| `ToolLoops.BalancedOneMore` | src/agent/tool_loop.rs:312-334 | one more call keeps the books, or reaches the streak limit and then is the one without a result message |
| `ToolLoops.TurnFollows` | src/agent/tool_loop.rs:238-257 | a response with tool uses and its results form a turn |
| `ToolLoops.PairedThenTurn` | src/agent/tool_loop.rs:238-257 | a conversation of whole turns stays one when a turn is added |
| `ToolLoops.BuildResult` | src/agent/tool_loop.rs:462-481 | the result tells the run: its calls, attachments, iterations and tokens, and the last text or else what the last call came to |
| `ToolLaws.InitialMessages` | src/agent/tool_loop.rs:382-404 | the history, unchanged, then one user message with the text first and the images after it |
| `ToolLaws.LastTextMeaning` | src/agent/tool_loop.rs:414-428 | the last non-empty text that an assistant's message shows |
| `ToolLaws.FinalTextMeaning` | src/agent/tool_loop.rs:462-520 | the last text, or else the last call's error, or else its output trimmed |
| `ToolLaws.TokensMeaning` | src/agent/tool_loop.rs:233-236 | tokens are summed over the responses that give both counts; there is no sum exactly if none does |
| `ToolLaws.AttachmentsOfOne` | src/agent/tool_loop.rs:312 | one call adds its own attachments |
| `ToolLaws.AttachmentsOfConcat` | src/agent/tool_loop.rs:312 | the attachments of the calls, in order |
| `FallbackTools.ExtractToolCalls` | src/llm/fallback_tools.rs:58-99 | the remaining text is the plain segments in order and the calls are the accepted blocks in order |
| `FallbackTools.SegmentsConserveText` | src/llm/fallback_tools.rs:58-99 | put together again the segments are the text; call segments are accepted blocks, so rejected and unclosed blocks stay verbatim |
| `FallbackTools.CallsAreNumbered` | src/llm/fallback_tools.rs:66-84 | calls are numbered without gaps in order, with known names; there are none exactly if no block is accepted |
| `FallbackTools.CallsComeInOrder` | src/llm/fallback_tools.rs:66-84 | one call for each accepted block, in order |
| `FallbackTools.ExtractionConserves` | src/llm/fallback_tools.rs:58-99 | with no calls the remaining text is the input; otherwise ids run from 1 and are all different |
| `FallbackTools.WrittenSegmentsAreRead` | src/llm/fallback_tools.rs:58-99 | plain text without `<` around accepted blocks is read back into the very segments it was written from |
| `FallbackTools.AcceptanceIgnoresNumber` | src/llm/fallback_tools.rs:101-140 | whether a block is accepted does not depend on its number, which only goes into the id |
| `FallbackTools.ParsedCallMeaning` | src/llm/fallback_tools.rs:101-140 | a block gives a call exactly if it parses to a document with a known name and arguments, and then the call has that name, these arguments and its number |
| `FallbackTools.CallIdMeaning` | src/llm/fallback_tools.rs:135-139 | the id is a fixed prefix and the number in decimal digits |
| `FallbackTools.CallIdIsInjective` | src/llm/fallback_tools.rs:135-139 | different numbers give different ids |
| `FallbackTools.BuildFallbackResponse` | src/llm/fallback_tools.rs:142-173 | without calls only the stop reason changes; with calls only text, blocks and stop reason do, and the blocks are the remaining text, unless blank, and one tool use per call in order |
| `Sse.SseBuffer.PushChunk` | src/llm/sse.rs:14-17 | text pushed is blocks taken and what is left in the buffer |
| `Sse.SseBuffer.NextEventBlock` | src/llm/sse.rs:19-25 | blocks taken are always the first blocks of the whole text; none is left exactly when nothing is returned |
| `Sse.BlocksFirst` | src/llm/sse.rs:14-25 | complete blocks at the front of a text stay its first blocks whatever follows |
| `Sse.DrainingDependsOnTextOnly` | src/llm/sse.rs:14-25 | two drained readers of the same text, however cut, took the same blocks and have the same rest; the framing follows a line-feed-only subset of section 9.2 of the WHATWG HTML standard |
| `Chunker.ChunkMarkdown` | src/memory/chunker.rs:22-109 | for every text and limit, 0 included: the chunks are cut into one run per section of the text, in order; all chunks of a run carry the heading of that section, the first one starts with it, further ones may repeat it, and besides that the run holds the visible characters of heading and body once and in order; so the chunks together hold those of the text; a section that fits is one chunk, and one that does not is taken apart into stretches of whole paragraphs under the heading, each going on as long as the next paragraph fits, and the line groups of the paragraphs that are too long; a chunk has at most four bytes a token, plus heading and line break where it starts with the heading, or is a single longer line; no chunk is empty and indexes run from 0 |
| `Chunker.AddParagraphs` | src/memory/chunker.rs:45-97 | the chunks added for a section that does not fit are a run of that section taken apart in this way, after the chunks that were there |
| `ChunkPlans.FlushPiece` | src/memory/chunker.rs:51-62 | a chunk is closed before a paragraph only if that paragraph leaves it no room |
| `ChunkPlans.GoOnStretch` | src/memory/chunker.rs:85-87 | a paragraph that fits goes on the stretch |
| `ChunkPlans.LongPiece` | src/memory/chunker.rs:64-84 | only paragraphs longer than the limit are cut into line groups, after the heading on its own |
| `ChunkPlans.HeadingIsALine` | src/memory/chunker.rs:37-40 | a heading put in front of a text is a line of its own |
| `Chunker.AddLineGroups` | src/memory/chunker.rs:63-83 | the line groups of a long paragraph extend the run of its section, under its heading, by the visible characters of the paragraph |
| `Chunker.Flushed` | src/memory/chunker.rs:51-59 | what is gathered makes a chunk within the bound, with the heading at its front |
| `Chunker.FittingRun` | src/memory/chunker.rs:33-44 | a section that fits is a run of one chunk that starts with its heading |
| `Chunker.CoversMore` | src/memory/chunker.rs:32-97 | adding the run of the next section keeps the accounts of those before |
| `Chunker.LineGroupOk` | src/memory/chunker.rs:75-81 | a group of lines makes a chunk within the limit, or is a single line of the text that is longer |
| `Chunker.SplitOnHeadings` | src/memory/chunker.rs:112-139 | the sections take up all the lines in order: each is a heading with the lines up to the next one; lines before the first heading are a section of their own, or, when blank, go to the front of the first body; nothing visible is lost |
| `Chunker.SplitOnBlankLines` | src/memory/chunker.rs:142-163 | the paragraphs are the longest runs of lines that are not blank, all of them in order; nothing visible is lost |
| `Chunker.SplitOnLines` | src/memory/chunker.rs:166-183 | the groups take up all lines in order; each fits or is one line, and has no room for the next; nothing visible is lost |
| `Chunker.NothingToFilter` | src/memory/chunker.rs:100-101 | dropping empty chunks changes nothing: none arises |
| `TextLines.LinesKeepVisible` | src/memory/chunker.rs:123-133 | cutting a text into lines loses nothing visible |
| `TextLines.LinesMeaning` | src/memory/chunker.rs:123-133 | the lines with their ends, a line feed or carriage return and line feed, make up the text; only the last may have none |
| `Chunker.IsHeadingMeaning` | src/memory/chunker.rs:124 | a heading starts with one to three number signs and a space |
| `TextLines.LinesOfJoin` | src/memory/chunker.rs:170-176 | lines that were joined come apart into the same lines in the same order, each without one carriage return at its end |
| `TextLines.TrimKeeps` | src/memory/chunker.rs:42 | trimming a chunk loses nothing visible and makes it no longer |
| `Whitespace.TrimMeaning` | src/memory/chunker.rs:42 | trimming takes all whitespace off both ends and nothing else |

## Left out

- The oracles: provider, step runner, tool registry, hooks, JSON parsing and lossy UTF-8 decoding are arbitrary functions; asynchronous calls are sequential.
- Observer hooks (`on_tool_result`, `on_completion`), stream sinks, logging, system prompts and tool specifications: they do not feed back into the state modelled.
- Machine integers: token sums, the streak counter, iteration numbers and four times the token limit are unbounded here; the branch for a delta index that does not fit a machine word has no counterpart. Capacity hints are ignored.
- Error texts: errors carry the same ids as the originals, but not their wording; the list of known nodes is a set.
- In-place strings and sets: `ScrubAfterMarker`, `ScrubPemBlocks` and `MarkDownstreamSkipped` return the new value instead of changing an argument, and so do the methods that extend the message list. The two mutable arguments of the cycle search are the fields of one object.
- Byte offsets: scrubbing and leak scanning count characters, as every cut is at a character boundary; the chunker counts bytes through a width per character.
- Execute: states nothing about plans whose public fields were changed into a graph that is valid but does not match the steps.
- ParseAndExecute: the caller's shortcut for plans of fewer than three steps (src/agent/integration/session.rs:351-357) is not part of it.
- Run: the choice between streaming and plain provider calls is one oracle; the stream collector is modelled on its own.
- PushChunk: a chunk that cuts a character in two decodes to replacement characters, as in the original, so the framing claims are about the decoded text.
- Finding the JSON in a model's answer (`extract_json`) and decoding it into a raw plan.
- Idempotence of the whole scrub is not claimed: replacing a PEM block can complete an earlier begin line.
- Percent-encoded, Base64 and hex leak scans, injection phrases, summaries for persistence, and splitting event blocks into data lines: lists of patterns or short loops that would add only easy members.
- Session storage, memory consolidation, vector search, retries, registries, providers, media, configuration and user interface.
