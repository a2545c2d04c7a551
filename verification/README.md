# Proofs about om-harness

om-harness runs coding agents: it validates and schedules plans of sub-tasks, publishes everything that
happens on an event bus, remembers facts, persists settings, and lets tools walk a repository and run
pipelines. This project models the parts of it whose correctness is not obvious from one function body,
and proves what those parts promise.

| file | module | what it models |
|---|---|---|
| PlanGraph.dfy | PlanGraph | plans, and the validator: Kahn's algorithm over a multigraph |
| PlanOrder.dfy | PlanOrder | depth as longest dependency chain, and the layer-peeling topological order |
| TaskRun.dfy | TaskRun | one task under retry with backoff, and the trail it leaves |
| WaveSchedule.dfy | WaveSchedule | a wave of coroutines under a semaphore, as a state machine over all schedules |
| PlanMeaning.dfy | PlanMeaning | the meaning of a plan by recursion over its graph, and when each task is settled |
| Coordinator.dfy | Coordination | the scheduler loop, which picks any enabled coroutine at every moment |
| TextPieces.dfy | TextPieces | occurrences of one text in another, and Python's replace, count and join |
| Redaction.dfy | Redaction | leftmost non-overlapping replacement, iterated over the secrets |
| RedactionCover.dfy | Coverage | which characters of overlapping secrets survive |
| RedactedValues.dfy | RedactedValues | redaction of nested event data, by content and by key |
| EventBus.dfy | Bus | bounded history, drop-oldest subscriber queues and readers, against an unbounded ghost log |
| TurnPump.dfy | TurnPump | the terminal's cursor consumer over one user turn |
| TextLines.dfy | TextLines | white space, lower case, and splitting text at every break character |
| MemoryStore.dfy | KeyedStore | the JSONL store as text, and as a keyed log with the last write winning |
| MemoryCodec.dfy | BracketCodec | an encoding of memory entries that the store could use |
| MemoryIndex.dfy | KeywordIndex | the inverted index, its score, and retrieval as a filtered top-k |
| Settings.dfy | Settings | the recursive merge, the TOML printer, and a reader of its lines |
| RepoWalk.dfy | RepoWalk | the explicit-stack repository walk against a recursive traversal |
| ShellPipeline.dfy | ShellPipeline | the quote-aware pipeline splitter and the control-character scanner |
| DispatchParallel.dfy | Dispatch | building a plan from a dispatch request |
| Wrappers.dfy | Wrappers | optional values, powers of two, and regrouping |

`dafny verify dfyconfig.toml` checks the whole project.

The runner of the coordinator is an arbitrary function of the task, the prior results and the attempt
number, and how a number of seconds is written is a parameter. Clocks are functions from an entry's id to a time,
so that every entry may be scored and bumped at a time of its own. Tokenizing, lowering and the rarity weight of a term are parameters of the memory index;
all that is used about them is that a rarity weight is positive; that a token occurs in the lowered text is
asked only for the word at hand, where a result needs it. Confidences are double-precision numbers from zero to
one, and times those that a calendar date can have. The JSON encoding of a memory entry is a parameter as well;
what is used about it is that it decodes to the entry, is not blank, keeps of all break characters exactly the
U+0085, U+2028 and U+2029 of the entry's texts, and cannot be decoded from a piece cut off at one of them (an
unterminated string, or an object without the required content). `BracketCodec.SoundCodecExists` shows that these
facts can hold together.
Which coroutine moves next and in which order a candidate set is walked is left open, so that a result
about those methods is a result about every order.

## Where the code does less than it seems to promise

- A timeout of a sub-task becomes a failed result only if a timeout is configured. With the timeout off, a runner
  that times out by itself makes the coordinator format a missing number, and that error leaves the whole plan
  without results (`Coordination.TimeoutOffRaises`). `Coordination.PlanRaisesIff` has the exact condition, and
  `Coordination.Coordinator.ExecutePlan` says that the plan raises exactly then.
- Redaction is not a guarantee for every secret. A secret that can overlap a marker (it contains an
  asterisk in the right place, or is part of the marker) can reappear when another secret is replaced next
  to the rest of it; `Redaction.LeaksIff` says exactly which secrets can. Secrets without an asterisk that
  are not part of the marker are safe.
- Replacing the longest secret first does not always cover overlapping secrets, although the comment at the sort
  says so: `Coverage.OverlapSurvives` is a text in which the end of a secret stays. `Coverage.SecretCovered` and
  `Coverage.ApartCovers` give a condition on the secrets alone under which nothing survives in any text. It is
  exact for one secret (`Coverage.AloneIff`), and for two secrets `Coverage.PairIff` gives the exact condition.
  For more than two only the one direction is proved: there secrets that run into each other can still be
  covered, since what is left of one may be a further secret, as already for a pair in
  `Coverage.DoubledIsCovered`.
- The store loses an entry with a U+0085, U+2028 or U+2029 in its text: the encoder leaves these characters as they
  are, the loader splits lines at them and skips the pieces, and the next rewrite drops the entry for good
  (`KeyedStore.LineSeparatorLost`). `KeyedStore.RewriteIff` has the exact condition, and the results about the
  index carry it.
- The comment at the sort of retrieved entries promises insertion order among equal scores, but the
  candidates come from a set, so that no order among them is fixed (`KeywordIndex.TwinsTie`). The answer is
  fixed exactly if no two hits tie for a place within the limit (`KeywordIndex.AnswerFixedIff`).
- Closing the bus does not end every reader: a full queue loses the end marker, and its reader waits
  forever after the last event (`Bus.SentinelIff`, `Bus.FullQueueNeverEnds`).
- Token accounting loses a model call whose rendering raises inside the pump: the count stands behind the
  rendering in the same guarded block (`TurnPump.RaisingLosesTokens`; `TurnPump.CompletedTurn` has the exact
  difference).
- Settings survive a write and a read exactly if all keys are bare keys (`Settings.RoundTripIff`). A hand-written
  file with a quoted key is loaded, and is unreadable after the next persist (`Settings.QuotedKeyLost`).
- Retrieval divides by zero for a relevant entry created exactly ten days after the clock, and gives
  entries created later than that a negative score, so that they are never returned
  (`KeywordIndex.CrashesIff`, `KeywordIndex.TwinsCrash`, `KeywordIndex.ScorePositiveIff`).
- A word is posted as it is lowered on its own, and counted in the content lowered as a whole. Where the two differ,
  as for a capital sigma before an apostrophe, the entry is posted under the word and not found by it
  (`KeywordIndex.SigmaLost`; `KeywordIndex.OneWordIff` has the exact condition).
- The repository walk skips directories that cannot be listed, but raises over one that can be listed and not
  searched, on Python versions up to 3.13: what cannot be examined there is neither a directory nor a file
  (`RepoWalk.UnsearchableRaises`; `RepoWalk.IterRepoFiles` has the exact condition).
- A mapped dispatch with a template that has dependencies never becomes a plan: the copied dependencies
  make some task depend on itself, or name none (`Dispatch.MapPlanIff`).

## Model

| member | source | states |
|---|---|---|
| `PlanGraph.ValidateGraph` | src/om_harness/models/task.py:100-125 | The validator accepts a plan if and only if ids are pairwise distinct, every dependency is declared and a rank function exists (no cycle), with repeated dependencies, self-dependencies and duplicate ids included; an unknown dependency is reported exactly when there is one, and the first one is named |
| `PlanGraph.IdCount` | src/om_harness/models/task.py:122-124 | Comparing the visited count with the number of tasks detects duplicate ids: the id set is as large as the task list exactly if the ids are distinct |
| `PlanGraph.FinishingOne` | src/om_harness/models/task.py:109-121 | Finishing a node lowers the open in-degree of each dependent by exactly the multiplicity of its edges |
| `PlanGraph.VisitedAllIff` | src/om_harness/models/task.py:113-124 | Once nothing more can be visited, everything was visited exactly if ids are distinct and the graph is acyclic |
| `PlanGraph.Visit` | src/om_harness/models/task.py:117-121 | One visit lowers in-degrees edge by edge and queues each node exactly when its degree reaches zero |
| `PlanOrder.DepthIs` | src/om_harness/models/task.py:127-141 | Depth lies strictly above every dependency and exactly one above the deepest |
| `PlanOrder.ChainBound` | src/om_harness/models/task.py:127-141 | No dependency chain that ends in an id is longer than its depth |
| `PlanOrder.LongestChain` | src/om_harness/models/task.py:127-141 | A chain of exactly that length exists, so depth is the longest chain |
| `PlanOrder.StableOrderIsStableSort` | src/om_harness/models/task.py:127-141 | The order is a permutation of the declared tasks, by depth, and in declaration order within a depth |
| `PlanOrder.DependenciesComeFirst` | src/om_harness/models/task.py:127-141 | Every dependency comes before its dependents |
| `PlanOrder.TopologicalOrder` | src/om_harness/models/task.py:127-141 | For every accepted plan the layer-peeling loop never raises and returns exactly the stable sort by depth |
| `TaskRun.StopUnique` | src/om_harness/orchestration/coordinator.py:133-159 | The last attempt is the first one that completes or raises, or else the last one allowed |
| `TaskRun.RaisesIff` | src/om_harness/orchestration/coordinator.py:138-149 | The retry loop raises if and only if the timeout is off and some allowed call times out that no completed call precedes |
| `TaskRun.CompletedIff` | src/om_harness/orchestration/coordinator.py:133-159 | A run ends completed if and only if some allowed call comes back with a completed result and, with the timeout off, no call before it times out |
| `TaskRun.NeverCompleted` | src/om_harness/orchestration/coordinator.py:144-159 | A run in which no call comes back completed, and which does not raise, makes every allowed call, and its result is failed with the message of the last error or time-out, or what the runner returned last |
| `TaskRun.SleptInTotal` | src/om_harness/orchestration/coordinator.py:134-135 | The sleeps before attempt k add up to base * (2^k - 1) |
| `TaskRun.CallsAt` | src/om_harness/orchestration/coordinator.py:133-143 | Call j gets the same prior results as every other, after base * (2^j - 1) seconds of sleep |
| `TaskRun.TrailShape` | src/om_harness/orchestration/coordinator.py:131-174 | A launched task makes at most retries + 1 calls, reports one failure per attempt that failed, opens with one started event, ends with one closing event or, if it raises, with the error, and reports nothing else |
| `TaskRun.TrailAt` | src/om_harness/orchestration/coordinator.py:143-165 | Attempt by attempt, the call with its number, prior results and sleep is followed by the report of what the runner said went wrong, unless it came back completed or raised |
| `TaskRun.FirstCompletedWins` | src/om_harness/orchestration/coordinator.py:157-174 | The result is that of the first completed attempt, or else of the last allowed one, where no attempt before it raises; a run raises at its first attempt that does |
| `WaveSchedule.StepInv` | src/om_harness/orchestration/coordinator.py:131-174 | Every step of any coroutine keeps the invariant: free permits and holders add up to the capacity, the calls not yet answered are the holders and at no point of the trace more than the permits, and each coroutine has reported exactly its trail so far |
| `WaveSchedule.RunInv` | src/om_harness/orchestration/coordinator.py:88-102 | Every state reachable by any schedule keeps it, and each step uses up one unit of the remaining work |
| `WaveSchedule.NotStuck` | src/om_harness/orchestration/coordinator.py:136 | No unfinished wave is stuck as long as the semaphore has a permit at all |
| `WaveSchedule.EveryScheduleAgrees` | src/om_harness/orchestration/coordinator.py:88-102 | Every schedule ends after at most a fixed number of steps, and one in which every coroutine has ended gives each task its own result or error and its own trail, whatever the interleaving |
| `WaveSchedule.BrokenIff` | src/om_harness/orchestration/coordinator.py:88-102 | A coroutine is found broken only in a wave with a task that raises, and when all have ended one of them is broken exactly then |
| `WaveSchedule.EveryScheduleCompletes` | src/om_harness/orchestration/coordinator.py:88-102 | Every schedule can be extended to one in which every coroutine has ended |
| `WaveSchedule.NoPermitNoProgress` | src/om_harness/config/loader.py:174-178 | With zero permits no coroutine of a wave ever ends, not even with an error, which is why the configuration demands at least one |
| `PlanMeaning.MeaningsExplain` | src/om_harness/orchestration/coordinator.py:71-104 | The recursive meaning over the graph gives each task what its dependencies' results call for: launched with exactly their results in the listed order if all completed, skipped otherwise |
| `PlanMeaning.ExplanationUnique` | src/om_harness/orchestration/coordinator.py:71-104 | There is only one result table with that property |
| `PlanMeaning.FailureReaches` | src/om_harness/orchestration/coordinator.py:73-86 | A task is skipped if and only if a dependency chain leads to it from a launched task that did not complete |
| `PlanMeaning.EndsCompletedIff` | src/om_harness/orchestration/coordinator.py:71-104 | A task ends completed exactly if all its dependencies do and some allowed call of it comes back completed, with the timeout off before any call times out |
| `PlanMeaning.FailureStopsDependents` | src/om_harness/orchestration/coordinator.py:73-86 | A task of which no call comes back completed has none of its dependents launched; they end skipped |
| `PlanMeaning.SettlingRound` | src/om_harness/orchestration/coordinator.py:68-104 | A launched task is settled in the iteration equal to its depth, a skipped one no later |
| `Coordination.Coordinator.RunWithRetry` | src/om_harness/orchestration/coordinator.py:122-174 | The retry loop returns the final result, or raises exactly if a call times out with the timeout off, and leaves exactly the trail of the task in either case |
| `Coordination.RunWave` | src/om_harness/orchestration/coordinator.py:88-100 | Any interleaving of the ready coroutines under the semaphore finishes, with every permit back and each result its own, exactly if none of them raises; it can be given up only once one has raised |
| `Coordination.Coordinator.Gather` | src/om_harness/orchestration/coordinator.py:88-102 | The wave raises exactly if one of its tasks does; otherwise its results are the final results of its tasks in order, and each task adds exactly its own trail. Never are more calls open than there are permits |
| `Coordination.Coordinator.GatherInOrder` | src/om_harness/orchestration/coordinator.py:88-174 | Running the retry loop over the ready tasks one after the other raises exactly if running them at once does, and otherwise gives the same results and adds the same trail for each task |
| `Coordination.Scan` | src/om_harness/orchestration/coordinator.py:69-76 | The scan splits the pending tasks into runnable and blocked ones in order |
| `Coordination.Coordinator.MarkSkipped` | src/om_harness/orchestration/coordinator.py:80-86 | Each blocked task gets a skip result and one report |
| `Coordination.ScanDecides` | src/om_harness/orchestration/coordinator.py:71-76 | Although it sees only the results so far, the scan decides as the final results would, and hands over the final priors |
| `Coordination.RoundSettles` | src/om_harness/orchestration/coordinator.py:68-104 | One iteration settles exactly the ready and the blocked tasks |
| `Coordination.NeverBreaks` | src/om_harness/orchestration/coordinator.py:77-78 | When neither a ready nor a blocked task is found nothing is pending, so the break is never taken |
| `Coordination.Coordinator.Schedule` | src/om_harness/orchestration/coordinator.py:66-104 | The loop strictly shrinks the pending list, needs at most depth + 1 iterations and leaves nothing over, unless an iteration raises, which is the first one with a task that does; the tasks of the iterations before it have settled as ever, and a task that raises has left its whole trail |
| `Coordination.Coordinator.ExecutePlan` | src/om_harness/orchestration/coordinator.py:55-114 | For every accepted plan and every runner the plan raises exactly if a launched task does, which with a timeout set never happens; otherwise result i is the recursive meaning of task i in topological order, of a task that depends on one of which no call comes back completed only a skip is reported, every task leaves exactly its trail, the trailing skip loop has nothing to do, and each task is settled on time. In either case a start stands behind the completion of each dependency, a skip behind the failure or skip of one, and never are more calls open than max_concurrency |
| `Coordination.PlanRaisesIff` | src/om_harness/orchestration/coordinator.py:138-149 | A plan raises if and only if the timeout is off and some launched task has a call that times out before one completes |
| `Coordination.TimeoutOffRaises` | src/om_harness/orchestration/coordinator.py:144-149 | A plan of one task, the timeout off, and a runner that times out: the plan raises |
| `Coordination.RoundReports` | src/om_harness/orchestration/coordinator.py:68-104 | One iteration keeps the order of reports over all tasks and the bound on open calls |
| `Redaction.NothingNew` | src/om_harness/config/secrets.py:84-87 | Replacing a secret creates no occurrence of anything that cannot overlap a marker |
| `Redaction.Removed` | src/om_harness/config/secrets.py:84-87 | The replaced secret does not occur afterwards unless it can overlap a marker |
| `Redaction.SecretGone` | src/om_harness/config/secrets.py:84-87 | After the whole loop no registered secret that cannot overlap a marker occurs in the text, whatever the others are |
| `Redaction.PlainSecretsAreSafe` | src/om_harness/config/secrets.py:84-87 | A secret without an asterisk that is not part of the marker cannot overlap one |
| `Redaction.LeaksIff` | src/om_harness/config/secrets.py:84-87 | A secret can reappear in redacted text, for some text and some other registered secret, if and only if it can overlap a marker |
| `Redaction.RedactTwice` | src/om_harness/config/secrets.py:84-87 | Redacting twice is redacting once, for secrets that cannot overlap a marker |
| `Redaction.RedactAround` | src/om_harness/config/secrets.py:84-87 | The text around a secret stays: what precedes its first occurrence, then the marker, then the rest redacted |
| `Redaction.KeyInMessage` | src/om_harness/config/secrets.py:84-87 | A message with a key in it, and the same message with the marker in its place |
| `Redaction.RedactIff` | src/om_harness/config/secrets.py:84-87 | Redacted text is exactly what comes of splitting around one secret after the other, longest first, and joining with markers |
| `Redaction.RedactionParts` | src/om_harness/config/secrets.py:84-87 | For secrets that cannot overlap a marker, the text is shown in order and complete but for some whole occurrences of secrets, each with one marker in its place |
| `TextPieces.SubstituteIff` | src/om_harness/config/secrets.py:84-87 | Replacing is joining, with the replacement, the only pieces in which each separator is the first occurrence behind the one before |
| `Coverage.RedactChars` | src/om_harness/config/secrets.py:84-87 | Redaction of text whose characters carry their origin is plain redaction of the characters |
| `Coverage.OnlyOccurrencesGo` | src/om_harness/config/secrets.py:84-87 | Whatever the secrets are, a character that is not shown was part of an occurrence of some secret when the turn of that secret came |
| `Coverage.KeptInOrder` | src/om_harness/config/secrets.py:84-87 | Whatever the secrets are, the characters that are shown stand in their order |
| `Coverage.SecretCovered` | src/om_harness/config/secrets.py:68-87 | A registered secret that runs into no secret of at least its length, itself included, and into which none of them runs (no end of one is a beginning of the other) has every character of every occurrence replaced, in every text and whatever the shorter secrets are |
| `Coverage.ApartCovers` | src/om_harness/config/secrets.py:69 | So nothing of any secret survives if no registered secret runs into a registered secret |
| `Coverage.AloneIff` | src/om_harness/config/secrets.py:69 | For one secret, nothing of it survives in any text if and only if it does not run into itself |
| `Coverage.PairIff` | src/om_harness/config/secrets.py:69 | For two secrets, the shorter of which cannot overlap a marker, nothing of either survives in any text if and only if neither runs into the other, the shorter not into itself, and the longer into itself only if it is the shorter one written several times |
| `Coverage.OverlapSurvives` | src/om_harness/config/secrets.py:69 | Two secrets that share two letters, and a text in which the end of the second is shown |
| `Coverage.DoubledIsCovered` | src/om_harness/config/secrets.py:69 | A pair in which a secret runs into itself and nothing survives all the same |
| `RedactedValues.SecretRedactor.constructor` | src/om_harness/config/secrets.py:68-70 | The redactor keeps the distinct candidates of at least six characters, longest first |
| `RedactedValues.SecretRedactor.RedactText` | src/om_harness/config/secrets.py:84-87 | The loop computes the iterated replacement |
| `RedactedValues.RedactedIsSecretFree` | src/om_harness/config/secrets.py:89-105 | After redact_value no string value at any depth of dicts, lists and tuples shows a registered secret that cannot overlap a marker, whatever else is registered |
| `RedactedValues.RedactedAt` | src/om_harness/config/secrets.py:95-100 | Under a sensitive key stands the marker, under any other the redacted value |
| `RedactedValues.RedactedPaths` | src/om_harness/config/secrets.py:89-105 | Path by path through dicts, lists and tuples: where no key on the way is sensitive, every string is the redacted text, containers keep their kind, keys and size and other values stay; under a sensitive key stands the marker |
| `RedactedValues.HarmlessUnchanged` | src/om_harness/config/secrets.py:89-105 | A value without secrets and without sensitive keys comes back unchanged |
| `RedactedValues.RedactValueTwice` | src/om_harness/config/secrets.py:89-105 | Redacting a value twice is redacting it once |
| `RedactedValues.SensitiveIff` | src/om_harness/config/secrets.py:11-47 | A key is sensitive exactly if, whatever its case, it is one of the names or has one of the parts in it |
| `RedactedValues.TokensKeyIff` | src/om_harness/config/secrets.py:31-47 | A key that ends in tokens, such as input_tokens, is taken for a credential exactly if one of the six sensitive substrings occurs in its lowered form |
| `Bus.AfterRetained` | src/om_harness/runtime/bus.py:85-92 | Filtering the bounded history by sequence number gives exactly the retained part of the unbounded log after the cursor |
| `Bus.AppendRetained` | src/om_harness/runtime/bus.py:65 | Appending to the bounded deque keeps it the last events of the log |
| `Bus.EventBus.Subscribe` | src/om_harness/runtime/bus.py:71-74 | A new queue is empty and accounts from the current end of the log |
| `Bus.EventBus.Cursor` | src/om_harness/runtime/bus.py:80-83 | The cursor is the number of events ever published |
| `Bus.EventBus.Since` | src/om_harness/runtime/bus.py:85-92 | since(c) is the retained part of the log after c, through eviction and close |
| `Bus.EventBus.Publish` | src/om_harness/runtime/bus.py:94-111 | An open bus redacts the data path by path, keeps id and kind, stamps with the next number, logs and offers the event to every queue; a closed one changes nothing |
| `Bus.LoggedAsPublished` | src/om_harness/runtime/bus.py:94-111 | Every event in the log is the one published at that place, numbered, with each string at a path without sensitive keys redacted and all else kept |
| `Bus.EventBus.Close` | src/om_harness/runtime/bus.py:113-117 | Every queue with room gets a sentinel, and nothing else changes |
| `Bus.EventQueue.Enqueue` | src/om_harness/runtime/bus.py:119-128 | Only the oldest unread event is dropped, and only from a full queue |
| `Bus.FanOut` | src/om_harness/runtime/bus.py:100-101 | Every queue receives the event and keeps its account |
| `Bus.TrackOffered` | src/om_harness/runtime/bus.py:119-128 | Offering keeps a queue the most recent contiguous block of the log, bounded by max_queue, with every earlier event received or dropped exactly once |
| `Bus.TrackTaken` | src/om_harness/runtime/bus.py:29-36 | Reading keeps that account and takes the oldest unread event |
| `Bus.EventReader.Get` | src/om_harness/runtime/bus.py:29-36 | A read returns the oldest item, an end for a sentinel, and blocks on an empty queue |
| `Bus.EventReader.Iterate` | src/om_harness/runtime/bus.py:45-52 | Iterating receives exactly the unread block of the log in order, and ends exactly if a sentinel was put |
| `Bus.DeliveryAccount` | src/om_harness/runtime/bus.py:71-74 | What a reader received is strictly increasing in sequence number, and received, dropped and unread events are exactly those published since the subscription |
| `Bus.SentinelIff` | src/om_harness/runtime/bus.py:113-117 | Close reaches a reader if and only if its queue had room; a full queue loses the end marker |
| `Bus.FullQueueNeverEnds` | src/om_harness/runtime/bus.py:113-128 | One subscriber with room for one event, one event and a close: the reader gets the event and no end |
| `Bus.VisibleIsSecretFree` | src/om_harness/runtime/bus.py:94-133 | No string value in the data of an event in history or in any queue shows a registered secret that cannot overlap a marker |
| `TurnPump.AddIsMonoid` | src/om_harness/models/task.py:52-61 | Usages add up in any order and grouping, and a cost is known as soon as one summand has one |
| `TurnPump.AddSums` | src/om_harness/models/task.py:52-61 | Adding adds tokens, requests and known costs |
| `TurnPump.RequestSizeWins` | src/om_harness/ui/repl.py:596-603 | The size of the last request goes before the input tokens of the whole run, which stand in only where it is missing or zero |
| `TurnPump.PublishingKeepsTokens` | src/om_harness/config/secrets.py:31-40 | Redaction never changes what an event costs |
| `TurnPump.LogCostsAsPublished` | src/om_harness/ui/repl.py:592-610 | The input and output tokens and the context size that a consumer reads off the log are those of the events as they were published |
| `TurnPump.TurnConsumer.Pass` | src/om_harness/ui/repl.py:658-690 | One pump pass is the drain-advance-render-count step |
| `TurnPump.TurnConsumer.Finish` | src/om_harness/ui/repl.py:549-610 | The end of a turn is the step that renders and, on completion, counts what the pump missed |
| `TurnPump.PlayTurn` | src/om_harness/ui/repl.py:505-629 | Any interleaving of publishes and passes on the real bus is a run of the step relation, item by item, in which an open bus gets every event of the script and a closed one none |
| `TurnPump.DrainExact` | src/om_harness/runtime/bus.py:85-92 | A drain gets everything after the cursor, or, if more than history_size events came in between, all but exactly the oldest ones |
| `TurnPump.PumpFresh` | src/om_harness/ui/repl.py:665-690 | Events with new ids are each shown once, in order, and counted unless rendering raises |
| `TurnPump.RunKeeps` | src/om_harness/ui/repl.py:658-690 | However publishes and passes interleave, what was drained was shown once in order and counted, and nothing else is gone but what was evicted |
| `TurnPump.TurnAccount` | src/om_harness/ui/repl.py:549-610 | On every exit path shown and evicted events together are exactly those of the turn; a completed turn has counted the rendered and the missed ones, any other only the rendered ones |
| `TurnPump.AllShownIff` | src/om_harness/ui/repl.py:505-558 | A turn shows all its events in order if and only if no drain came too late |
| `TurnPump.CompletedTurnCounts` | src/om_harness/ui/repl.py:592-610 | Without eviction a completed turn grows total_usage by exactly the token sum of all its model calls, less those whose rendering raised in the pump, and without those the context gauge shows the last call |
| `TurnPump.CompletedTurn` | src/om_harness/ui/repl.py:505-629 | On the bus itself, a completed turn that was in time grows total_usage by exactly the input and output tokens of the model calls published in it, less those drained calls whose rendering raised, and without such calls the gauge shows the last one; a turn that publishes no more than history_size events is always in time |
| `TurnPump.RaisingLosesTokens` | src/om_harness/ui/repl.py:665-690 | A completed turn, in time, whose only model call is never counted because its rendering raises in the pump |
| `KeyedStore.LookupMerge` | src/om_harness/memory/store.py:64-69 | The last write of an id wins and unwritten ids keep their value |
| `KeyedStore.PrintedCons` | src/om_harness/memory/store.py:71-73 | A rewrite writes one line for each entry, in order, each ended by a newline |
| `KeyedStore.MergeTwice` | src/om_harness/memory/store.py:64-69 | Storing a batch twice is storing it once |
| `KeyedStore.RewriteKeeps` | src/om_harness/memory/store.py:71-87 | The text a rewrite writes is read back entry by entry in order, without exactly those entries whose encoding the line split tears apart |
| `KeyedStore.RewriteIff` | src/om_harness/memory/store.py:71-87 | What a rewrite writes is what the next load means if and only if no text of an entry holds U+0085, U+2028 or U+2029 |
| `KeyedStore.LineSeparatorLost` | src/om_harness/memory/store.py:71-87 | The file written for an entry with a line separator in its content holds nothing |
| `BracketCodec.SoundCodecExists` | src/om_harness/memory/store.py:71-87 | What is asked of the encoding of an entry can be met: escaped and bracketed columns meet it |
| `KeyedStore.NothingLostIff` | src/om_harness/memory/store.py:64-87 | No id is lost by a rewrite if and only if no text holds such a character |
| `TextLines.LinesConcat` | src/om_harness/memory/store.py:80 | Text around a break character splits into the lines of both sides |
| `TextLines.BreaksAre` | src/om_harness/memory/store.py:80 | The ten characters at which text is split, all of them white space |
| `TextLines.WhiteAre` | src/om_harness/tools/shell.py:143-146 | The characters that stripping takes off |
| `TextLines.LowerLetters` | src/om_harness/config/secrets.py:42 | Capital letters become small ones and all else stays |
| `KeyedStore.MemoryStore.LoadAll` | src/om_harness/memory/store.py:75-87 | Loading splits the text at every break character and returns the readable lines in order, skipping blank and torn ones |
| `KeyedStore.MemoryStore.Store` | src/om_harness/memory/store.py:58-62 | Storing one entry updates exactly its key, less the entries that the rewrite tears apart |
| `KeyedStore.MemoryStore.StoreBatch` | src/om_harness/memory/store.py:64-69 | Storing a batch merges it into the contents, less the entries that the rewrite tears apart, and leaves one line per id |
| `KeyedStore.MemoryStore.Delete` | src/om_harness/memory/store.py:93-99 | The count comparison says whether the id was there, even with repeated lines; exactly that id is gone, and without it the file is untouched; entries that the rewrite tears apart go as well |
| `KeyedStore.MemoryStore.Compact` | src/om_harness/memory/store.py:105-108 | Exactly the listed ids are gone, and entries that the rewrite tears apart |
| `KeywordIndex.PostKeeps` | src/om_harness/memory/index.py:71-75 | Indexing an entry posts all its current terms, loses no posting and posts no unknown id |
| `KeywordIndex.AddConsistent` | src/om_harness/memory/index.py:77-81 | Adding or replacing an entry keeps every posted id a key of the entry map and every current term posted, with stale postings left behind |
| `KeywordIndex.BuildConsistent` | src/om_harness/memory/index.py:63-69 | So does rebuilding, also from a file with repeated ids |
| `KeywordIndex.CountPositive` | src/om_harness/memory/index.py:155-156 | A term has a positive frequency exactly if it occurs in the lowered content |
| `KeywordIndex.ScorePositiveIff` | src/om_harness/memory/index.py:139-181 | An entry scores above zero exactly if a query term occurs in it or is one of its tags, it has any confidence, and it was not created ten days or more after the clock |
| `KeywordIndex.TenDaysHalve` | src/om_harness/memory/index.py:24-26 | A ten-day-old entry scores half of a fresh one |
| `KeywordIndex.AccessAddsTenth` | src/om_harness/memory/index.py:27-28 | Each earlier access adds a tenth |
| `KeywordIndex.ScoresLikeOccurrences` | src/om_harness/memory/index.py:139-181 | For one query word that is no tag, entries that differ only in their texts score as the word occurs in the lowered texts |
| `KeywordIndex.TagMatchAdds` | src/om_harness/memory/index.py:20-23 | A tag that matches adds 5 / idf of what one occurrence of the word is worth |
| `KeywordIndex.TermsAddUp` | src/om_harness/memory/index.py:139-181 | The score for a query is the sum of the scores for its parts |
| `KeywordIndex.ConfidenceWeighs` | src/om_harness/memory/index.py:166-181 | Scores are proportional to the confidence |
| `KeywordIndex.AgeDecays` | src/om_harness/memory/index.py:24-26 | An entry of some age scores to what it would score fresh as ten days to ten days and its age |
| `KeywordIndex.ConfidenceIs` | src/om_harness/memory/models.py:31-47 | A confidence is the value of the double that stands for it |
| `KeywordIndex.ScoreEntry` | src/om_harness/memory/index.py:139-181 | The loop computes the score over the query terms, and fails exactly where the score is a division by zero |
| `KeywordIndex.SortedDescending` | src/om_harness/memory/index.py:129 | The sorted pairs are in non-increasing order of score |
| `KeywordIndex.SortedPermutes` | src/om_harness/memory/index.py:129 | Sorting is a permutation |
| `KeywordIndex.BestIsTopK` | src/om_harness/memory/index.py:128-130 | Sorting the hits and cutting at the limit gives at most limit of them, best first, and leaves one out only if all the chosen ones score at least as high |
| `KeywordIndex.AnswerFixedIff` | src/om_harness/memory/index.py:111-130 | The answer is the same for every order in which the candidate set is walked if and only if no two different hits score the same while fewer than limit hits score above them |
| `KeywordIndex.TwinsTie` | src/om_harness/memory/index.py:128-130 | Two entries with the same text are each the right answer at a limit of one, so the promised order of ties is not fixed |
| `KeywordIndex.MatchesAreConsidered` | src/om_harness/memory/index.py:103-126 | An entry with a matching tag, or a matching word that occurs in its lowered content, that passes the filters and scores above zero is left out only when limit entries scoring at least as high are returned |
| `KeywordIndex.MoreOccurrencesFirst` | src/om_harness/memory/index.py:111-130 | For one query word that is no tag, of two entries that differ only in their texts the one in which the word occurs more often is returned whenever the other one is, and before it |
| `KeywordIndex.WordsAndTagsFind` | src/om_harness/memory/index.py:71-126 | An entry is found by any word of its text that occurs in its lowered text, and by any of its tags whatever its case, if it passes the filters and has some confidence and a positive recency divisor |
| `KeywordIndex.TagsNarrow` | src/om_harness/memory/index.py:115-118 | A query with tags finds exactly those entries the query without them does that have every tag |
| `KeywordIndex.ConfidenceNarrows` | src/om_harness/memory/index.py:119-122 | And with a least confidence exactly those that have that much |
| `KeywordIndex.OneWordIff` | src/om_harness/memory/index.py:101-126 | Asked for with one word under which it is posted, an entry with some confidence and a positive recency divisor is found if and only if the word occurs in its content lowered as a whole or is one of its tags |
| `KeywordIndex.SigmaLost` | src/om_harness/memory/index.py:139-156 | An entry posted under a word that is lowered differently on its own, and not found by it |
| `KeywordIndex.CrashesIff` | src/om_harness/memory/index.py:111-175 | Retrieval raises over an entry if and only if it is a candidate, passes the filters, holds a query term as it is now (a stale posting is not enough) and was created exactly ten days after the clock |
| `KeywordIndex.TwinsCrash` | src/om_harness/memory/index.py:172-175 | A search that raises |
| `KeywordIndex.TotalBumped` | src/om_harness/memory/index.py:133-134 | The total access count grows by exactly the number of entries returned |
| `KeywordIndex.MemoryEntry.BumpAccess` | src/om_harness/memory/models.py:49-52 | A bump adds one access and the time |
| `KeywordIndex.MemoryIndex.Build` | src/om_harness/memory/index.py:63-69 | After a build the entries are the stored ones, and the index is consistent and in step with the store, whatever was there before |
| `KeywordIndex.MemoryIndex.Add` | src/om_harness/memory/index.py:77-81 | Memory and store are both updated at the key and stay consistent; if the store agreed at the other ids it agrees afterwards exactly if no text holds a break character, whatever it held under this id |
| `KeywordIndex.AddAgreesIff` | src/om_harness/memory/index.py:77-81 | Adding under an id at which store and index may differ ends in agreement exactly if no text holds a break character |
| `KeywordIndex.MemoryIndex.Persist` | src/om_harness/memory/index.py:83-86 | All entries are written, whatever the store held, and it agrees with them afterwards exactly if no text holds a break character |
| `KeywordIndex.PersistAgreesIff` | src/om_harness/memory/index.py:83-86 | So does writing everything, whatever the store held |
| `KeywordIndex.StoreAndAdd` | src/om_harness/tools/memory.py:63-75 | The remember tool, which stores and then adds, keeps store and index in agreement also when it updates a known id, and the contents are updated at exactly that key |
| `KeywordIndex.MemoryIndex.Retrieve` | src/om_harness/memory/index.py:90-137 | The answer is a filtered top-k of at most limit entries, each posted under a word of the query, with all its tags and its least confidence; each returned entry is bumped once and no other, everything is persisted, and it raises exactly if some candidate crashes, with nothing changed |
| `KeywordIndex.ServedKeeps` | src/om_harness/memory/index.py:90-137 | A retrieval keeps store and index in agreement and loses no stored id, where no stored text holds a break character |
| `KeywordIndex.MemoryIndex.ScoreCandidates` | src/om_harness/memory/index.py:111-126 | In whatever order the candidate set is walked, the lookup never fails and exactly the hits are collected |
| `KeywordIndex.MemoryIndex.Clear` | src/om_harness/memory/index.py:56-59 | Clearing forgets memory only |
| `KeywordIndex.DirectWriteIff` | src/om_harness/memory/compressor.py:216-217 | A direct write to the store keeps it in agreement with the index if and only if what it writes last under an indexed id is what the index holds, and no indexed text holds a break character |
| `KeywordIndex.FreshWriteAgrees` | src/om_harness/memory/compressor.py:216-217 | In particular for fresh ids, where no indexed text holds a break character |
| `KeywordIndex.Perform` | src/om_harness/memory/index.py:56-137 | Every operation keeps the index consistent whatever the store holds; with texts free of break characters it keeps store and index in agreement and loses no stored id; a retrieval grows the accesses by what it returns, an added entry by what it brings less those of the entry it replaces, and a write elsewhere not at all |
| `KeywordIndex.Interleave` | src/om_harness/memory/index.py:56-137 | So does any interleaving of build, add, store-then-add under any id, retrieve, persist and clear with direct writes of fresh ids; over a run without build, clear or replacement the total access count grows by exactly one for each entry returned, besides those that come with new entries |
| `Settings.MergeGet` | src/om_harness/config/user_settings.py:172-179 | Key by key, tables are merged and anything else is replaced |
| `Settings.MergeKind` | src/om_harness/config/user_settings.py:172-179 | Path by path, the override wins where it says anything, a scalar of it hides what was below, and the rest is kept |
| `Settings.MergeTwice` | src/om_harness/config/user_settings.py:172-179 | Merging the same override twice is merging it once |
| `Settings.DumpIff` | src/om_harness/config/user_settings.py:182-204 | Printing raises exactly if some value at some depth is an array |
| `Settings.PrintableIff` | src/om_harness/config/user_settings.py:182-189 | A table is printable exactly if no path in it leads to an array |
| `Settings.SplitJoined` | src/om_harness/config/user_settings.py:199-203 | A header carries the full path and is split back into it |
| `Settings.ReadDump` | src/om_harness/config/user_settings.py:192-204 | Printed lines fill exactly the open table, at every depth and under any prefix, with no duplicate header or key |
| `Settings.RoundTripIff` | src/om_harness/config/user_settings.py:192-204 | Reading back what was printed gives the table, scalars first, if and only if every key at every depth is bare |
| `Settings.SpacedKeyLost` | src/om_harness/config/user_settings.py:197-198 | A key with a space does not survive |
| `Settings.KindScalarsFirst` | src/om_harness/config/user_settings.py:195-196 | Printing scalars first changes no lookup |
| `Settings.DumpExample` | src/om_harness/config/user_settings.py:192-204 | How a file with pairs and two tables looks: pairs first, an empty line before each header, another behind each table, none at the ends |
| `Settings.BareAre` | src/om_harness/config/user_settings.py:197-198 | Bare keys are non-empty and made of letters, digits, underscores and dashes |
| `Settings.UserConfig.LoadUserOverrides` | src/om_harness/config/user_settings.py:152-161 | Without a file loading gives the empty table; otherwise it reads the table of the file, quoted keys included, and fails on a malformed one |
| `Settings.ReaderProper` | src/om_harness/config/user_settings.py:152-161 | What is read has no key twice at any depth, and bare keys only unless a line quotes its keys |
| `Settings.BrokenFails` | src/om_harness/config/user_settings.py:157-161 | A file with a line that is no blank, header or pair does not load |
| `Settings.HeaderTwiceFails` | src/om_harness/config/user_settings.py:157-161 | Nor does one with a header that comes twice |
| `Settings.KeyTwiceFails` | src/om_harness/config/user_settings.py:157-161 | Nor one with a key that comes twice in a row |
| `Settings.QuotedMeansSame` | src/om_harness/config/user_settings.py:157-161 | Quotes around bare keys make no difference |
| `Settings.QuotedHeaderOpens` | src/om_harness/config/user_settings.py:157-161 | A header in quotes opens its table whatever its keys |
| `Settings.UserConfig.PersistUpdates` | src/om_harness/config/user_settings.py:164-169 | Persisting succeeds exactly if the file is well-formed and the merge printable, writes nothing otherwise, and is then loaded as the merge exactly if the merge has bare keys only; for a file without quoted keys that is if the updates have. Without a file it succeeds exactly if the updates are printable, and creates one that is read as the updates exactly if these have bare keys only |
| `Settings.FirstStart` | src/om_harness/config/user_settings.py:152-169 | Loading, persisting and loading again where no file is: the empty table, success, and the updates |
| `Settings.QuotedKeyLost` | src/om_harness/config/user_settings.py:164-204 | A file with a quoted key that loads, and no longer does after anything is persisted into it |
| `Settings.PersistedKind` | src/om_harness/config/user_settings.py:152-179 | What any path leads to after a persist and a load, where the merge has bare keys only |
| `Settings.PersistTwice` | src/om_harness/config/user_settings.py:164-169 | Persisting the same updates again leaves the file as it is, line by line, where the merge has bare keys only |
| `RepoWalk.ListingOrderIrrelevant` | src/om_harness/tools/files.py:136 | The order in which the system lists a directory does not matter |
| `RepoWalk.LessIff` | src/om_harness/tools/files.py:136 | Names are sorted by their first difference: the smaller character, or the end, comes first |
| `RepoWalk.ListDir` | src/om_harness/tools/files.py:139-149 | The entries of a directory add its kept files until the limit is hit, and raise exactly at an entry whose kind cannot be told that comes before |
| `RepoWalk.PushedPending` | src/om_harness/tools/files.py:150 | Pushing the sub-directories in reverse keeps what is still to come in lexicographic depth-first order, and the size of the trees on the stack is conserved |
| `RepoWalk.IterRepoFiles` | src/om_harness/tools/files.py:128-151 | The explicit-stack walk is the recursive traversal cut to its first limit elements, and raises exactly if an entry whose kind cannot be told comes up in the order of the walk before the limit is reached |
| `RepoWalk.RaisesIff` | src/om_harness/tools/files.py:139-141 | The walk without a limit raises if and only if some path over readable, kept, non-symlink directories leads to an entry whose kind cannot be told |
| `RepoWalk.UnsearchableRaises` | src/om_harness/tools/files.py:139-141 | A directory that can be listed but not searched, and the walk over it raises |
| `RepoWalk.TraverseIff` | src/om_harness/tools/files.py:139-149 | A path is listed exactly if it leads over readable, kept, non-symlink directories to a kept file |
| `RepoWalk.AdmittedIffWay` | src/om_harness/tools/files.py:139-149 | A path is admitted exactly if there is an entry for each part of it, each directory on the way being readable, no link and none to skip, and the last entry a file whose name, whatever its case, does not end with a suffix to skip |
| `RepoWalk.TraverseInOrder` | src/om_harness/tools/files.py:136-150 | Files are listed depth first, those of a directory before its sub-directories, both by name |
| `RepoWalk.TraverseOnce` | src/om_harness/tools/files.py:128-151 | Each admitted file is listed once |
| `RepoWalk.ListFiles` | src/om_harness/tools/files.py:172-177 | Asking for one more than can be shown detects an over-long listing exactly, and raises exactly if an entry whose kind cannot be told comes up before that; each file is shown once, in the order of the walk |
| `ShellPipeline.SplitPipeline` | src/om_harness/tools/shell.py:128-147 | The raw pieces rejoined with pipes are the command, no piece holds an unquoted pipe, and the quote state is outside at every cut; the stages are the pieces stripped |
| `ShellPipeline.SplitUnique` | src/om_harness/tools/shell.py:128-147 | A command has only one such split |
| `ShellPipeline.QuotedIsOneStage` | src/om_harness/tools/shell.py:128-174 | A text in quotes, of either kind and with anything but that quote in it, is one stage, and nothing in it is rejected |
| `ShellPipeline.UnquotedSplit` | src/om_harness/tools/shell.py:128-147 | A command without quotes is cut at every pipe |
| `ShellPipeline.UnquotedMeta` | src/om_harness/tools/shell.py:158-174 | And the first of its control characters is found |
| `ShellPipeline.QuotedStretch` | src/om_harness/tools/shell.py:128-174 | A quoted stretch behind text without quotes is kept whole within its stage, and the split and the finding are those of what stands before and behind it |
| `ShellPipeline.OpenQuote` | src/om_harness/tools/shell.py:128-174 | A quote that is not closed keeps the rest of the command |
| `ShellPipeline.QuoteForms` | src/om_harness/tools/shell.py:128-174 | Every command with a quote has one of these two forms |
| `ShellPipeline.StripIs` | src/om_harness/tools/shell.py:143-146 | A stage is stripped of white space at both ends, and of all of it there |
| `ShellPipeline.FindUnquotedMetachar` | src/om_harness/tools/shell.py:158-174 | The scanner returns the first control character outside of quotes |
| `ShellPipeline.MetaIff` | src/om_harness/tools/shell.py:158-174 | One is found exactly if there is one at a position whose quote state is outside, and it is the first |
| `ShellPipeline.PiecesMeta` | src/om_harness/tools/shell.py:128-174 | Scanning the pieces separately finds what one scan of the whole command finds |
| `ShellPipeline.StripMeta` | src/om_harness/tools/shell.py:143-146 | Stripping a stage neither hides nor adds a control character |
| `ShellPipeline.FirstRejected` | src/om_harness/tools/shell.py:128-174 | Split and scan stage by stage give the same first finding as one scan of the command |
| `Dispatch.ExpandedDistinct` | src/om_harness/tools/parallel.py:70-92 | Generated ids never clash, whatever the template and the items |
| `Dispatch.ExpandedAt` | src/om_harness/tools/parallel.py:70-92 | Task i is the template with item i in place of every placeholder of its id, title and instruction, the rest of each text kept, the index behind the id if there are several items, and the other fields copied |
| `Dispatch.DecimalReads` | src/om_harness/tools/parallel.py:79-81 | The index is written in decimal without leading zeros |
| `PlanGraph.IndependentIsValid` | src/om_harness/tools/parallel.py:152-187 | Distinct tasks without dependencies are always a valid plan |
| `Dispatch.MapPlanIff` | src/om_harness/tools/parallel.py:70-92 | A mapped plan is valid if and only if its template has no dependencies |
| `Dispatch.GetTasks` | src/om_harness/tools/parallel.py:64-93 | Exactly one of list and map must be given |
| `Dispatch.BuildPlan` | src/om_harness/tools/parallel.py:136-187 | Which requests become plans, exactly, and which failure each of the others meets |

## Left out

- Subprocesses, sockets, model providers, the prompt and the renderer: foreign calls. The runner, the clock and the file system are parameters or values.
- Cancellation of a running plan: an attempt either returns a result, times out or raises.
- What the other coroutines of a wave still do after an error has left the plan: the trace ends there.
- Negative retry counts: the code would make no attempt at all and fail its own assertion; retries are natural numbers here.
- A runner whose answer depends on more than the sub-task, the prior results and the attempt number; a result that carries another id than its sub-task is kept as it is, as in the code.
- The order of the started events of one wave relative to the scans of the loop: a wave is one atomic iteration of the loop, as in the code, where the loop awaits all its tasks.
- Rounding: scores, sleeps and costs are real numbers, and the ten-day boundary is exact.
- Event fields other than the id, the number, the kind and the data, and token counts that are not numbers.
- Lowercasing beyond ASCII, in sensitive keys and in file suffixes.
- Keys of event data: redaction does not look into them, and neither do the results here.
- TurnPump.TurnAccount: assumes that the events of a turn have different ids, as generated ids do; with repeated ids an event would not be shown again.
- Rendering, activity summaries and the status bar: only what is shown, counted and left on the gauge is modelled.
- Atomic replacement of the memory file and concurrent writers: a rewrite happens at once.
- The JSON encoding of an entry beyond the facts named above, and break characters in the fields of an entry that are not modelled (its source session and source task, and its id, which is only compared here).
- Fields of a memory entry that retrieval and the store do not look at, and expiry, which retrieval ignores.
- Coverage.ApartCovers: for three or more secrets the converse is not proved; the condition is sufficient there, not necessary.
- Coverage.PairIff: assumes that the shorter secret cannot overlap a marker; otherwise what is left of it could be replaced together with a part of a marker.
- Exact postings after an entry is replaced: stale ones stay, and the results only say that no posted id is unknown and no current term is missing.
- Settings.RoundTripIff: the reader knows headers, pairs and blank lines with bare or quoted keys, a quoted key being given by the text it spells; dotted keys of pairs, comments and multi-line values of TOML are not part of it, and scalars are opaque. A printed key that is not bare is taken as malformed, also where its text happens to be TOML for another key.
- Settings.UserConfig.LoadUserOverrides: dotted keys of pairs, arrays of tables, comments and multi-line values have no line form here; the result is about files without them.
- Validation of single settings and their application to the live configuration: a case analysis.
- File contents, searching, editing and sandbox path checks; symbolic links other than directory links.
- Redirections, quoting rules of the argument parser and the execution of stages: the redirect expression of a stage does not look at quotes, so the results are about the two scanners only.
- Dispatch.BuildPlan: the items of a map are strings already, and aggregation of the results is not modelled.
- History trimming, output truncation, plan mode, approval, routing and version comparison.
