# cuckoo-echo: verified model of the algorithms and protocols

This project models the parts of cuckoo-echo that do real work on their own: the streaming client,
the text chunkers, the prompt template engine, the circuit breaker, message reconciliation, the
two-tier rate limiter, the MMR re-ranker, the human-in-the-loop escalation protocol, the context
compressor, the agent orchestrator, the caches and the experiment assignment. There is one module per
source file; five topics have modules of their own: the chunker's marks (`ChunkMarks`) and repeated chunks
(`ChunkRepeats`), the overlap of the semantic chunks (`SemanticOverlap`), what templates show
(`TemplateValues`) and their rescanned text (`RescannedText`). `Text` (white space, stripping, searching,
splitting, joining), `Sorting` (stable sorting), `Sets` (sizes) and `Wrappers` (optional values) serve all.

Code that changes state is modelled by classes and methods with loops; each method is proved equal to
a specification function or to a property, and the theorems are lemmas about these functions and about
runs of state machines. Concurrency is modelled as interleaving: breaker calls, gateways, pollers,
admins and workflows take steps in any order.

Parameters of the model: `JSON.parse`, `json.dumps` and `json.loads`, `str.lower` and the term set of a
text, the sizes of serialised threads, the Unicode table behind `\w` outside ASCII, clocks, and the
outcomes of awaited calls. Clocks do not go back. Floating point numbers are reals.

What the proofs found in the code:

- `_recursive_split` does not clear `current` after an oversized part, so a part that fits is emitted once
  and once more for every oversized part met while it is held (`ChunkRepeats.EmittedOnceAndAgain`). Among
  non-empty parts this happens exactly when a fitting part comes before an oversized one
  (`ChunkRepeats.RepeatsIff`; over all levels of the recursion `ChunkRepeats.RepeatsSomewhereIff`);
  `ChunkRepeats.AbRepeats` is a text. Nothing is lost and nothing is invented.
- Text put in by an earlier pass is scanned again, beside whatever follows it. What a loop shows is left
  alone exactly when no part of it can go on to a variable tag or an if tag (`RescannedText.LeftAloneIff`),
  what a variable of an if-block shows exactly when none can go on to a variable tag
  (`RescannedText.VariableLeftAloneIff`), and a loop inside of an if-block must not show the beginning of
  an end tag either (`RescannedText.EndTagPassesIff`). Under these conditions, place by place, rendering is
  evaluation (`PromptTemplate.RenderIsEval`). Without them an item `{{name}}` is substituted again
  (`RescannedText.SecondSubstitution`), the end of a tag may come from the template
  (`RescannedText.SplitTag`), and an item with an end tag in it makes text of a false if-block appear
  (`RescannedText.LeakedBlock`).
- A loop over a value that cannot be iterated raises even inside an if-block whose condition is false
  (`PromptTemplate.RenderIsEval`).
- The semantic chunker searches from the start of the chunk, so a sentence can be found too early. All
  spans are right exactly when no opening sentence occurs between the place of the previous opening
  sentence and its own (`SemanticChunker.SpansTrueIff`); `SemanticChunker.EarlySpan` is a text.
- The breaker's successes survive a reopening: an episode needs `half_open_max_calls` successes of its own
  exactly when it inherits none (`CircuitBreaker.ClosingEpisode`, with a run in
  `CircuitBreaker.SuccessesCarryOver`). The code half-opens at `>= timeout`, its design document at
  `> timeout`.
- `take_session`, `end_session` and the poller read the session without locking it. A commit follows the
  protocol exactly when the session still is what was read (`Hitl.ProperIff`). Otherwise a session can be
  taken by an admin and have a ticket (`Hitl.TakenAndEscalated`), or be taken twice and reopened after its
  end (`Hitl.TakenTwice`).
- Ending a session hands its thread back even while another session of the thread is active
  (`Hitl.SharedThread`, `Hitl.ThreadsFollowIff`).
- `register_agent` on a known id frees the agent even while it works, harmless exactly when it is not busy
  (`Orchestrator.ReregisterKeepsIff`); otherwise a second workflow can be given the same agent
  (`Orchestrator.DelegatedTwice`).
- Two role names can share a key exactly when they are equal or one continues the other after a colon
  (`SharedContext.RolesCollideIff`).
- The cache configuration has `maxThreads`, but only sizes decide what is evicted: a save keeps to it exactly
  when enough threads are evicted for their size (`ThreadCache.MaxThreadsIff`, with an input in
  `ThreadCache.MaxThreadsExceeded`). `maxMessages: 0` keeps all messages (`ThreadCache.Tail`).
- Overlapping saves end with a total that fits (`ThreadCache.OverlappingSavesFit`), but one of them may delete
  a thread saved after it listed the entries (`ThreadCache.StaleListingDeletes`).

## Model

| member | source | states |
|---|---|---|
| SseClient.Client.ParseStream | frontend/src/network/sseClient.ts:122-193 | For every cutting of the body into fragments, the callbacks fired are those of a one-shot parser on the whole text, and the inactivity timer is off at the end |
| SseClient.Client.Handle | frontend/src/network/sseClient.ts:153-180 | Which callback one line fires, whether it ends the stream, and when it re-arms the timer |
| SseClient.LinesConcat | frontend/src/network/sseClient.ts:138-143 | Reading two texts one after the other gives the lines of their concatenation, the unfinished tail carried over |
| SseClient.FoldPrefix | frontend/src/network/sseClient.ts:145-184 | After a terminal line the fragments still to come change nothing |
| SseClient.TerminalLast | frontend/src/network/sseClient.ts:153-157 | At most one terminal callback is fired and it is the last callback; it is missing exactly when the body ends without failure and no complete line is the end mark or an error payload |
| SseClient.TerminalIff | frontend/src/network/sseClient.ts:148-171 | A line ends the stream exactly when it is a data line with the end mark, or with an object whose `error` is a string |
| SseClient.NoiseChangesNothing | frontend/src/network/sseClient.ts:146-182 | A comment, ping, blank line, other field, or data that is null or not JSON, put in anywhere between the lines of a body, changes no callback |
| SseClient.CarriageReturns | frontend/src/network/sseClient.ts:138-147 | Any line may end with a carriage return and a line feed instead of a line feed |
| SseClient.RoundTrip | frontend/src/network/sseClient.ts:134-185 | However fragmented, whatever noise lies between the lines and whichever way they end, the tokens the server encoded are handed over in order with the last message id announced, then the end, or the server's error with its code and message, once; text after it is ignored |
| SseClient.DualFormat | frontend/src/network/sseClient.ts:15-37 | The backend format and the OpenAI format both carry their token, the backend format first |
| SseClient.NoToken | frontend/src/network/sseClient.ts:15-37 | An object without content and without choices carries no token, only its message id |
| Chunker.SplitText | knowledge_pipeline/chunker.py:13-31 | The split refines its functional specification, fallbacks included |
| Chunker.RecursiveSplit | knowledge_pipeline/chunker.py:34-74 | The loops over separators and parts refine the recursion, stale `current` included |
| Chunker.FixedSizeSplit | knowledge_pipeline/chunker.py:77-87 | The window loop terminates and yields the non-blank overlapping windows |
| Chunker.WindowAt | knowledge_pipeline/chunker.py:77-87 | Window i starts i * (chunk_size - overlap) in, is `chunk_size` long unless the text ends, and exists exactly while it starts inside the text |
| Chunker.NothingLost | knowledge_pipeline/chunker.py:34-87 | The text without white space and separator characters is a subsequence of the concatenated chunks |
| Chunker.ChunksFit | knowledge_pipeline/chunker.py:13-87 | Non-blank text, and only it, gives chunks; each is non-blank, at most `chunk_size` long and a subsequence of the text |
| Chunker.RecRejoins | knowledge_pipeline/chunker.py:45-72 | When all parts at the chosen separator are non-empty and fit, joining the chunks with it gives the text back, and no two neighbours would fit one chunk |
| ChunkMarks.CoarsestFirst | knowledge_pipeline/chunker.py:10-74 | At every level of the recursion a text is cut at the coarsest mark that occurs in it - blank line, line feed, 。, ！, ？, full stop, exclamation mark, question mark, space - and into windows if none does: handing down the separators that are left is choosing afresh |
| ChunkMarks.CutAtMark | knowledge_pipeline/chunker.py:10-72 | When the parts at its coarsest mark are non-empty and fit, the text is cut there and nowhere else: before stripping the chunks rejoin with that mark, and no two neighbours would fit one chunk |
| ChunkMarks.CutAnywhere | knowledge_pipeline/chunker.py:37-87 | A long text without any mark gives the non-blank overlapping windows |
| ChunkMarks.PartsLack | knowledge_pipeline/chunker.py:49 | No part contains the separator it was cut at |
| ChunkRepeats.EmittedOnceAndAgain | knowledge_pipeline/chunker.py:53-72 | A non-empty part that fits is emitted once, and once more for every oversized part met while it is held |
| ChunkRepeats.NoRepeatIff | knowledge_pipeline/chunker.py:53-72 | No part is emitted twice exactly when no oversized part is reached with a non-empty `current` |
| ChunkRepeats.NothingHeldIff | knowledge_pipeline/chunker.py:54-67 | When `current` is empty after a part: empty parts at the front, and an empty part that no longer fits, clear it |
| ChunkRepeats.RepeatsIff | knowledge_pipeline/chunker.py:45-72 | On a text: if no part at the chosen separator is empty, some part is emitted twice exactly when a fitting part comes before an oversized one |
| ChunkRepeats.RepeatsSomewhereIff | knowledge_pipeline/chunker.py:34-74 | For a whole split: at some level of the recursion a part is emitted twice exactly when at some level an oversized part is reached with a non-empty `current` |
| ChunkRepeats.TraceHonest | knowledge_pipeline/chunker.py:53-72 | An emitted chunk is made of exactly the parts it is counted to hold, glued with the separator |
| ChunkRepeats.AbRepeats | knowledge_pipeline/chunker.py:13-72 | A text of two parts whose first chunk is emitted before and after the second part |
| PromptTemplate.RenderIsEval | chat_service/agent/prompt_template.py:25-69 | When what loops and if-blocks show cannot be mistaken by the pass that sees it again, the three passes over a printed template equal the direct evaluation of its tree, and fail exactly when some loop's value cannot be iterated; values shown only outside of blocks may be anything |
| TemplateValues.VariableShown | chat_service/agent/prompt_template.py:35-42 | Between harmless texts a variable shows its value, and nothing when it is missing or None |
| TemplateValues.BlockShown | chat_service/agent/prompt_template.py:44-53 | An if-block shows its body exactly when its name is there, not None and true |
| TemplateValues.LoopShown | chat_service/agent/prompt_template.py:55-69 | A loop shows one round per item, in order and joined by line feeds, nothing when its list is missing, and fails exactly when the list is None or cannot be iterated |
| PromptTemplate.LoopPass | chat_service/agent/prompt_template.py:55-69 | The loop pass turns a printed template into the printed template whose loops are expanded |
| PromptTemplate.IfPass | chat_service/agent/prompt_template.py:44-53 | The if pass turns a printed loop-free template into one without blocks |
| PromptTemplate.VarsLeaves | chat_service/agent/prompt_template.py:35-42 | The variable pass on printed text and variables is their evaluation |
| PromptTemplate.ReplaceFor | chat_service/agent/prompt_template.py:57-67 | The substitution loop renders the body once per item, loop variable bound over the context, joined by line feeds |
| RescannedText.LeftAloneIff | chat_service/agent/prompt_template.py:29-31 | What a loop shows comes through the if pass and the variable pass unchanged, whatever follows it and whatever the context, exactly when no part of it can go on to a variable tag or an if tag |
| RescannedText.VariableLeftAloneIff | chat_service/agent/prompt_template.py:30-42 | What a variable of an if-block shows comes through the variable pass unchanged, whatever follows it and whatever the context, exactly when no part of it can go on to a variable tag |
| RescannedText.EndTagPassesIff | chat_service/agent/prompt_template.py:44-53 | The search for the end of an if-block passes over a text, whatever follows it, exactly when no part of it can go on to an end tag |
| PromptTemplate.CanOpenIff | chat_service/agent/prompt_template.py:35-69 | A text can go on to a tag exactly when some continuation begins with the whole tag |
| RescannedText.LoopItemRescanned | chat_service/agent/prompt_template.py:29-31 | A loop over one item is rendered to the item's text as the later passes leave it |
| RescannedText.SecondSubstitution | chat_service/agent/prompt_template.py:29-31 | An item showing as a variable tag is rendered to that variable's value instead |
| RescannedText.SplitTag | chat_service/agent/prompt_template.py:29-31 | An item showing the first half of a tag, followed by template text with the second half, is rendered to that variable's value |
| RescannedText.LeakedBlock | chat_service/agent/prompt_template.py:44-53 | An item showing an end tag ends the if-block around its loop: the text after it is rendered although the condition is false |
| CircuitBreaker.Breaker.Admit | shared/circuit_breaker.py:74-81 | Admission and its effect on the fields, reading the state included |
| CircuitBreaker.Breaker.ReadState | shared/circuit_breaker.py:43-50 | Reading the state half-opens an expired breaker |
| CircuitBreaker.Breaker.RecordSuccess | shared/circuit_breaker.py:52-60 | The new fields after a success |
| CircuitBreaker.Breaker.RecordFailure | shared/circuit_breaker.py:62-72 | The new fields after a failure |
| CircuitBreaker.Breaker.Reset | shared/circuit_breaker.py:101-105 | The new fields after a reset |
| CircuitBreaker.HalfOpenIsLive | shared/circuit_breaker.py:43-89 | In every run: with no call of the current episode in flight the next call is admitted, and no episode admits more than `half_open_max_calls` |
| CircuitBreaker.RunKeeps | shared/circuit_breaker.py:43-106 | All the invariants hold after every interleaving of calls, outcomes, state reads and resets; the success count is the number of successes recorded in HALF_OPEN since the last close or reset |
| CircuitBreaker.FailuresCounted | shared/circuit_breaker.py:52-72 | The failure count is the run of failures ending the log since the last reset and below the threshold when closed; totals count all outcomes |
| CircuitBreaker.StateFromLog | shared/circuit_breaker.py:43-72 | In every run the state after an event is told by the record: a failure opens a closed breaker exactly when the failures ending the log, this one included, reach `failure_threshold`; in HALF_OPEN it always reopens; an open breaker half-opens exactly when `timeout` has passed since the last failure of the log |
| CircuitBreaker.AdmittedIff | shared/circuit_breaker.py:74-81 | In every run a call is admitted exactly when the breaker is closed, or open with `timeout` past since the last failure of the log, or half-open with fewer calls started in the episode than `half_open_max_calls` |
| CircuitBreaker.StaysClosedIff | shared/circuit_breaker.py:62-89 | From any moment at which it is closed, the breaker stays closed exactly as long as fewer failures than the threshold follow one another, and until then refuses no call |
| CircuitBreaker.AdmittedAfterTimeout | shared/circuit_breaker.py:45-48 | A call admitted while not closed starts at least `timeout` after every failure recorded since the last reset |
| CircuitBreaker.OpenShields | shared/circuit_breaker.py:74-89 | From an open breaker, no run without a reset admits a call before the timeout |
| CircuitBreaker.ClosingEpisode | shared/circuit_breaker.py:52-60 | In every run a success closes the breaker exactly when the episode has then recorded `half_open_max_calls` less what it inherited; it needed all of them exactly when it inherited none |
| CircuitBreaker.HalfOpeningInherits | shared/circuit_breaker.py:43-50 | What an episode inherits is the success count just before it begins |
| CircuitBreaker.SuccessesCarryOver | shared/circuit_breaker.py:43-72 | A run from the initial state in which an episode closes the breaker with one success although two are asked for |
| ChatStore.Store.ReconcileMessages | frontend/src/stores/chatStore.ts:132-161 | Merge, stable sort and deduplication refine their specification |
| ChatStore.Idempotent | frontend/src/stores/chatStore.ts:132-161 | Reconciling again with the same server messages changes nothing |
| ChatStore.ReconciledShape | frontend/src/stores/chatStore.ts:138-158 | The result is sorted by time, has unique ids, and holds exactly the server ids and those of unconfirmed optimistic messages |
| ChatStore.EarliestSurvives | frontend/src/stores/chatStore.ts:152-158 | Of several messages with one id the earliest is kept |
| RateLimit.TokenBucket.Allow | api_gateway/middleware/rate_limit.py:45-53 | The decision and the new tokens and refill time |
| RateLimit.Gateway.LocalTier | api_gateway/middleware/rate_limit.py:81-91 | A bucket is created or replaced when the configured rate differs, and then asked |
| RateLimit.Conservation | api_gateway/middleware/rate_limit.py:45-53 | Tokens spent and left never exceed those there at first and those the time can add |
| RateLimit.RateBound | api_gateway/middleware/rate_limit.py:45-53 | Over any stretch of calls of any run at most capacity * (1 + T) are allowed |
| RateLimit.SpacedNeverRefused | api_gateway/middleware/rate_limit.py:45-53 | Requests at least 1/capacity apart are never refused |
| RateLimit.NoCapacity | api_gateway/middleware/rate_limit.py:45-53 | A bucket without capacity never allows |
| RateLimit.WindowBound | api_gateway/middleware/rate_limit.py:93-103 | Any number of gateways forward at most `user_rps` requests of a key in one life of its counter, and every counter has or is about to get its expiry |
| RateLimit.CountedLast | api_gateway/middleware/rate_limit.py:93-97 | In every run an increment counts the request behind all that were counted before it in the life of the key's counter, and a new life begins with nobody counted |
| RateLimit.ForwardedIff | api_gateway/middleware/rate_limit.py:95-103 | In every run a request decided by the second tier is forwarded exactly when fewer than `user_rps` requests, all of its key, were counted before it in the same life, and rejected otherwise |
| RateLimit.ExactlyRps | api_gateway/middleware/rate_limit.py:93-103 | Once everyone counted in a life is decided, exactly the smaller of `user_rps` and the number counted have been forwarded |
| RateLimit.SpacedPassLocal | api_gateway/middleware/rate_limit.py:81-91 | In every run a gateway asked for a key at intervals of at least 1/user_rps refuses none of the requests |
| RateLimit.GatewayBound | api_gateway/middleware/rate_limit.py:81-103 | Every forwarded request spent a local token, so over any stretch of its calls a gateway forwards at most user_rps * (1 + T) requests of a key |
| RateLimit.KeysApart | api_gateway/middleware/rate_limit.py:82-94 | Keys of different tenants or users differ when tenant ids hold no colon |
| Reranker.MmrDiversity | shared/reranker.py:41-89 | The selection is greedy, first best at every step, and stops only at the limit, when nothing is left or at an empty document |
| Reranker.BestRemaining | shared/reranker.py:55-75 | The inner loop finds the first document with the highest score |
| Reranker.GreedyUnique | shared/reranker.py:54-87 | There is only one greedy selection of a given length |
| Reranker.SelectionComplete | shared/reranker.py:54-89 | Distinct positions, exactly min(limit, n) of them for non-empty documents |
| Reranker.ScoresInRange | shared/reranker.py:59-82 | For lambda_mult in [0, 1] all scores lie in [0, 1] |
| Reranker.ScoresNonIncreasing | shared/reranker.py:62-82 | From the second pick on scores never rise, for every lambda_mult up to 1 |
| Reranker.RelevanceEnds | shared/reranker.py:105-113 | Relevance is 1 exactly when the text holds every query term, and 0 exactly when it holds none |
| Reranker.SimilarityEnds | shared/reranker.py:115-125 | Similarity is symmetric, 1 exactly for equal term sets, and 0 exactly for disjoint ones |
| Reranker.SharesExact | shared/reranker.py:105-125 | Relevance is the share of the query's terms that are not missing; similarity weighs the shared terms against the terms of both texts, shared ones counted once |
| Reranker.ScoreBlends | shared/reranker.py:59-70 | The score is the relevance at lambda_mult 1, the distance to the most similar selected text at 0 (zero if there is none), and linear in between |
| Reranker.Relevance | shared/reranker.py:105-113 | The share of query terms found lies in [0, 1] |
| Reranker.Similarity | shared/reranker.py:115-125 | The Jaccard similarity lies in [0, 1] |
| SemanticChunker.Chunker.SplitBySemantics | shared/semantic_chunker.py:22-64 | The packing loop refines its specification |
| SemanticChunker.EveryFindSucceeds | shared/semantic_chunker.py:33-35 | No search for a sentence returns -1 |
| SemanticChunker.SpansTile | shared/semantic_chunker.py:37-62 | Spans tile the text up to its end, starts never decrease, ids count up |
| SemanticChunker.SentencesWhole | shared/semantic_chunker.py:37-53 | Every sentence is whole in some chunk |
| SemanticOverlap.OverlapCarried | shared/semantic_chunker.py:33-62 | The chunks are consecutive runs of all sentences, stripped; each but the first begins with the last `overlap_size` characters of what the one before held, and a sentence opens a chunk exactly when it would make the chunk before too long |
| SemanticChunker.ChunksSized | shared/semantic_chunker.py:37-53 | No chunk is empty or longer than max(max_chunk_size + 1, overlap_size + 1 + longest sentence) |
| SemanticChunker.SpansTrueIff | shared/semantic_chunker.py:33-62 | Every chunk starts at the true place of its opening sentence exactly when no opening sentence occurs between the place of the previous one and its own |
| SemanticChunker.SpanEndsTrueIff | shared/semantic_chunker.py:34-49 | A flushed chunk ends at the true place of the next sentence exactly when that sentence does not occur earlier in it |
| SemanticChunker.EmptySpanIff | shared/semantic_chunker.py:34-49 | A chunk that starts at its true place has an empty span exactly when the sentence opening the next chunk is a beginning of its own opening sentence |
| SemanticChunker.EarlySpan | shared/semantic_chunker.py:33-62 | A text whose first chunk gets a span that ends inside its first sentence |
| SemanticChunker.Locate | shared/semantic_chunker.py:105-108 | The sentences are at their computed places in the text, one after the other without overlap |
| Hitl.Store.NotifyHitlRequest | admin_service/routes/hitl.py:69-94 | A session and its task are opened together |
| Hitl.Store.TakeSession | admin_service/routes/hitl.py:148-180 | Taking succeeds exactly for pending sessions; 404 and 409 otherwise, changing nothing |
| Hitl.Store.EndSession | admin_service/routes/hitl.py:187-218 | Ending succeeds exactly for active sessions |
| Hitl.Store.PollEscalationTasks | admin_service/routes/hitl.py:289-338 | A due task is deleted, and escalates its session if that is pending |
| Hitl.EveryAtomicRun | admin_service/routes/hitl.py:69-338 | With atomic transactions: at most one task and ticket per session, a pending session has its task, a ticket exactly for auto-escalated sessions, none both taken and escalated, none escalated early |
| Hitl.AtMostOneClaim | admin_service/routes/hitl.py:289-338 | Statement by statement, with any number of pollers: at most one task and ticket per session, none before 60 seconds |
| Hitl.EveryInterleaving | admin_service/routes/hitl.py:69-338 | The same for every interleaving from an empty system |
| Hitl.ProperIff | admin_service/routes/hitl.py:157-218 | A commit is a transition of the protocol (pending to active or auto-escalated, active to resolved; a poller may leave a session that is not pending) exactly when what it read of the session still holds |
| Hitl.StatusKeptIff | admin_service/routes/hitl.py:157-177 | The status claims survive a step exactly when it is not a poller's clashing commit, a take of an escalated session or an end of a pending one |
| Hitl.ClashFreeRuns | admin_service/routes/hitl.py:148-338 | Interleavings without clashing commits keep the status claims, and take no session twice |
| Hitl.EveryClashFreeRun | admin_service/routes/hitl.py:69-338 | The same for every such interleaving from an empty system |
| Hitl.TakenAndEscalated | admin_service/routes/hitl.py:157-177 | An interleaving from an empty system that leaves a session active, with an admin and a ticket |
| Hitl.TakenTwice | admin_service/routes/hitl.py:157-180 | An interleaving from an empty system in which a session is taken, ended, and taken again by an admin who had read it as pending |
| Hitl.ThreadsFollowIff | admin_service/routes/hitl.py:169-209 | With atomic transactions a thread is in human_intervention exactly while one of its sessions is active, all along a run, if and only if no session is ended while another one is active on its thread |
| Hitl.SharedThread | admin_service/routes/hitl.py:201-209 | A run that leaves a session active on a thread that is not in human_intervention |
| ContextCompressor.Compress | shared/context_compressor.py:34-50 | Sorting by importance, the greedy loop and the final sort refine their specification |
| ContextCompressor.CompressedFits | shared/context_compressor.py:41-50 | The result is a time-ordered sub-multiset within budget |
| ContextCompressor.SelectionIsBest | shared/context_compressor.py:43-47 | The selection is the lexicographically greatest within budget, and no dropped message would fit |
| ContextCompressor.ImportanceStable | shared/context_compressor.py:38-39 | Importance falls along the order, and equal scores keep their places |
| ContextCompressor.KindsInOrder | shared/context_compressor.py:38-59 | Only tool messages come before a tool result; then messages that state a preference, the system's, the user's, and all others |
| Orchestrator.Orchestrator.DelegateTask | chat_service/agent/orchestrator.py:121-153 | The first free agent of the target role, failing that the first free agent, none exactly when nobody is free |
| Orchestrator.FirstCapable | chat_service/agent/role_registry.py:31-36 | The target role is the first one with the capability, none exactly when no role has it |
| Orchestrator.Orchestrator.ExecuteWithRetry | chat_service/agent/orchestrator.py:155-213 | The first answer within max_retries + 1 attempts, or a counted failure |
| Orchestrator.Orchestrator.ExecuteWorkflow | chat_service/agent/orchestrator.py:253-291 | An uninterrupted workflow leaves the agents as it found them, counts every execution, and gives each task the right agent and its first answer within the attempts, or none |
| Orchestrator.RunKeeps | chat_service/agent/orchestrator.py:121-291 | In every interleaving an agent is busy exactly when one workflow holds it, and executions started are those succeeded, failed or running |
| Orchestrator.TriesBounded | chat_service/agent/orchestrator.py:155-213 | Over every run, in any interleaving, each task of a workflow is tried at most max_retries + 1 times |
| Orchestrator.AgentsRestored | chat_service/agent/orchestrator.py:226-291 | Whenever no execution is in progress the agents are as they were found, and successes plus failures are the executions started |
| Orchestrator.ReregisterKeepsIff | chat_service/agent/orchestrator.py:84-89 | Registering an id again is harmless exactly when its agent is not busy |
| Orchestrator.DelegatedTwice | chat_service/agent/orchestrator.py:84-153 | A run from idle agents in which an agent is registered again while it works and is then held by two workflows |
| ThreadCache.Cache.SaveThread | frontend/src/lib/cache.ts:28-48 | The store after a save: the new thread added, the evicted ones gone |
| ThreadCache.Tail | frontend/src/lib/cache.ts:33-34 | The kept messages are the most recent ones: exactly a positive `maxMessages` of them unless all fit; zero keeps all |
| ThreadCache.Cache.EvictOldest | frontend/src/lib/cache.ts:77-86 | The loop deletes exactly the oldest entries in excess |
| ThreadCache.Cache.LoadThread | frontend/src/lib/cache.ts:51-65 | A load returns the thread unless missing or expired, and removes an expired one |
| ThreadCache.Cache.ClearExpired | frontend/src/lib/cache.ts:90-100 | Exactly the expired threads are removed |
| ThreadCache.EvictsOldest | frontend/src/lib/cache.ts:77-86 | The evicted threads are a prefix of the oldest-first order and the store holds the others |
| ThreadCache.EvictionIsMinimal | frontend/src/lib/cache.ts:75-86 | What stays fits the limit, and would not with the last evicted thread put back |
| ThreadCache.MaxThreadsIff | frontend/src/lib/cache.ts:28-86 | After a save there are at most `maxThreads` threads exactly when the threads there were, the new one included, exceed it by no more than the number evicted for their size |
| ThreadCache.MaxThreadsExceeded | frontend/src/lib/cache.ts:28-86 | Two threads that fit together are both kept although one is allowed |
| ThreadCache.OverlappingSavesFit | frontend/src/lib/cache.ts:28-86 | However saves overlap with each other and with deletions, once all have finished the stored threads fit the limit |
| ThreadCache.StaleListingDeletes | frontend/src/lib/cache.ts:68-86 | A run in which a thread that fits is deleted by a save that listed an older version of it |
| MemoryCache.Cache.Get | shared/memory_cache.py:18-25 | The visible value; an expired entry is removed |
| MemoryCache.Cache.Set | shared/memory_cache.py:27-29 | The entry with its deadline; a missing or zero ttl means the default |
| MemoryCache.LazyIsPure | shared/memory_cache.py:18-41 | On a clock that does not go back, every run of operations answers as a map from keys to values with deadlines |
| MemoryCache.ReadableUntil | shared/memory_cache.py:18-29 | A value is read back until `ttl` seconds after it was set, `default_ttl` if none or zero was given, unless its key is written again |
| SharedContext.KeysApart | chat_service/agent/shared_context.py:15-46 | Role keys never meet global keys, and are told apart for roles without a colon |
| SharedContext.RolesCollideIff | chat_service/agent/shared_context.py:40-46 | Two roles can share a key exactly when they are equal or one of them continues the other after a colon |
| SharedContext.RoleWriteIsLocal | chat_service/agent/shared_context.py:25-53 | Writing one role entry changes no other role entry and no global entry, and reads back until its deadline |
| Experiment.AssignVariant | chat_service/services/experiment.py:338-348 | The variant whose cumulative weight range holds the bucket, the first beyond them, `control` without variants |
| Experiment.BucketsMatchWeights | chat_service/services/experiment.py:338-348 | Weights up to 100: each variant after the first owns its weight in buckets, the first also the remainder |

## Left out

- RateLimit.Gateway.LocalTier: keeps bucket values in its dictionary rather than bucket objects, so sharing of a bucket object between requests is not represented; `_get_user_rps` is the parameter `rates`, fixed during a run.
- SseClient.Client.ParseStream: the timer is a flag; its expiry, UTF-8 decoding, `connect`, `reconnect` and callbacks that throw are not modelled.
- Hitl.Store.PollEscalationTasks: the row returned by the locking query is given by the caller; row-level security, tenant ids, the WebSocket broadcast and admin messages are not modelled, and identifiers are assumed fresh.
- Orchestrator.Orchestrator.ExecuteWorkflow: decomposition of the query, aggregation, latencies and cancellation are not modelled.
- ThreadCache.Cache.SaveThread: runs without interruption, and the listing of entries is given by the caller; saves that overlap are the runs of `ThreadCache.OverlappingSavesFit`.
- SemanticChunker.Chunker.SplitBySemantics: `parent_id`, `preserve_hierarchy` and metadata are not modelled.
- MemoryCache.Cache.Get: a stored None and a missing key are told apart, as `exists` does; `get_many`, `set_many` and `clear` are repetitions of the modelled operations.
- PromptTemplate.RenderIsEval: the conditions on rescanned text are exact for a text beside any other text; a particular template and context may be rendered right without them. If-blocks inside if-blocks and loops inside loops are not in the trees, as the patterns do not nest; the template store is a dictionary.
- Experiment.AssignVariant: the hash is the bucket; weights are not negative; the significance approximation is not modelled.
- Messages with invalid dates, and mixtures of naive and aware timestamps, which have no order.
- Database, Redis, HTTP and LLM calls beyond the rows and counters above; user interface; access tables; billing limits; chat lock; tree-of-thought search; regular-expression classifiers.
