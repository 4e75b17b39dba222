# Agentware verification

A Dafny model of the algorithms and protocols inside the agentware SDK, with proofs of what
they guarantee on every input, in every run and in every interleaving. `dafny verify
dfyconfig.toml` checks the whole project.

| files | component |
|---|---|
| `AsyncLogger.dfy`, `AsyncLoggerDelivery.dfy`, `AsyncLoggerCalls.dfy`, `AsyncLoggerStops.dfy`, `AsyncLoggerLogging.dfy`, `AsyncLoggerBatches.dfy`, `AsyncLoggerRuns.dfy`, `AsyncLoggerProgress.dfy` | the asynchronous audit logger as a step system: callers of Start, Log, Flush and Stop beside the drain goroutine, each access to shared state one step |
| `MemoryPages.dfy`, `Prerequisites.dfy`, `PrerequisiteTies.dfy`, `LearningPath.dfy` | wiki-memory graph queries: closure with depths, Kahn ordering with the remnant of cycles, learning paths |
| `Levenshtein.dfy`, `Ontology.dfy` | the terminology index: edit distance, nearest terms, subclass and broader worklists, inferred inverses |
| `Civil.dfy`, `JobId.dfy` | the closed-form civil date of the Rust job manager, and the job ids made from it |
| `Compaction.dfy`, `CompactionGuarantees.dfy`, `CompactionLosses.dfy`, `CompactionExact.dfy`, `ContextWindow.dfy` | tiered conversation compaction and the manager that runs it |
| `RateLimiter.dfy` | the per-key rate limiter |
| `RuntimeSocket.dfy` | the session protocol of the runtime socket, shared by concurrent callers, against a daemon that may answer anything, and the fail-closed evaluator |
| `Guardrails.dfy`, `GuardrailsRuns.dfy`, `GuardrailsConfig.dfy` | the guardrails facade, its whole-run guarantees, and its configuration |
| `Manifest.dfy`, `ManifestRoundTrip.dfy`, `ManifestExact.dfy` | the tool manifest v3 at the level of JSON values, its round trips, and which documents are accepted with what meaning |
| `AsciiEscape.dfy` | ASCII escaping of JSON text in Go and in Rust |
| `CallTemplate.dfy`, `CallTemplateSegments.dfy` | filling the path placeholders of a URL template, and what arguments can do to its structure |
| `Sorting.dfy`, `Graphs.dfy`, `Bytes.dfy`, `Options.dfy` | sorting and counting, walks and distances, byte texts, absent values |

Clocks, the order in which Go iterates a map, the answers of the daemon and lower-casing are
inputs or free choices of the model. Records handed to the writing code of the logger count
as delivered; with no sink configured that code discards them.

Where the code does not do what its comments say, the model follows the code:

- `go/middleware/async_logger.go:138-141` promises that Flush returns only after every earlier
  record is written. `AckedFlushMayReturnEarly` and `IdleFlushMayReturnEarly` are runs that break
  it. Whether every continuation of a call keeps it is decided by the state at the call: with the
  goroutine running, exactly when no caller holds a record and the buffer is empty (`FlushExactly`),
  or, as long as Stop is not called, empty or read by no other caller (`FlushWithoutStopExactly`);
  without it, exactly when everything was written before (`IdleFlushExactly`).
- `go/middleware/async_logger.go:163-165` promises that Stop flushes the buffered records, blocks
  until the goroutine has exited, and may be called more than once. A Stop that finds another
  under way returns at once (`SecondStopMayReturnEarly`, `SecondStopMayNotWait`): every
  continuation of a call finds the goroutine gone exactly when it is the first Stop or the
  goroutine was gone before (`StopWaitsExactly`). Even the closing Stop can return before a record
  that a Flush took is written (`ClosingStopMayReturnEarly`): every continuation finds the earlier
  records in the sink exactly when at the call no caller held one, the buffer was empty, and,
  unless it is the first Stop, the batch too (`StopFlushesExactly`). What is left in buffer and
  batch alone is decided in `StopExactly`.
- A Log between its check and its send panics if Stop closes the buffer in between
  (`go/middleware/async_logger.go:107-121`); `PanicExactly` and `PanicReachable` show that this
  is the only way to panic.
- `go/memory/query.go:156` says that cycles cannot occur. Nothing rejects a cycle of
  prerequisite links, so the cyclic case is covered: `RemnantMeansCycle`.
- Compaction works out the recent steps anew in each phase. When an older step resumes after a
  recent one began, a message of a recent step can be lost (`RecentMayBeLost`);
  `SurvivesExactly` gives the exact condition on the step indices.
- Guardrails rule keys join names with NUL characters, so different rules can count as one
  (`DifferentRulesRefused`); `KeyUniqueExactly` says for which rules that cannot happen.
- Percent-encoding leaves dots alone, so an argument can be a dot segment (`ParentSegment`);
  `DotSegmentsExactly` says exactly when one arises.
- The rate limiter accepts a negative window, and then denies nothing (`RunHolds`).

## Model

| member | source | states |
|---|---|---|
| AsyncLogger.NewConfig | go/middleware/async_logger.go:73-90 | a positive size is kept, any other becomes the default of 1024 records or 64 per batch, so every configuration has room for a record |
| AsyncLogger.StepKeepsLocated | go/middleware/async_logger.go:107-299 | any one step of any caller or of the drain goroutine keeps every accepted record in exactly one place |
| AsyncLogger.StepKeepsInv | go/middleware/async_logger.go:94-299 | every step keeps the whole invariant: places, who may be where in Flush and Stop, the call counts, and what each flushing caller is owed |
| AsyncLogger.RunInv | go/middleware/async_logger.go:94-299 | the invariant holds after every run, whatever the interleaving |
| AsyncLoggerDelivery.ExactlyOnce | go/middleware/async_logger.go:107-121 | after every run each accepted record is in exactly one of the buffer, a drainer's batch or the sink, once; Log calls are the accepted, the dropped and those still inside Log; the buffer never exceeds its size |
| AsyncLoggerLogging.CheckDecides | go/middleware/async_logger.go:107-115 | a Log call is dropped at its check if and only if the logger is stopped then |
| AsyncLoggerLogging.SendDecides | go/middleware/async_logger.go:116-121 | at its send a Log call panics if and only if the buffer is closed, is dropped if and only if the buffer is full, and otherwise its own record becomes the last accepted and the last in the buffer |
| AsyncLoggerLogging.AcceptedExactly | go/middleware/async_logger.go:107-121 | over every run the accepted records are those of the sends that found an open buffer with room, in order, each the record its caller passed to Log last |
| AsyncLoggerLogging.DroppedExactly | go/middleware/async_logger.go:107-121 | over every run the drop counter, with the callers about to count a drop, is the number of Log calls whose check found the logger stopped or whose send found the buffer full |
| AsyncLoggerBatches.BatchBounded | go/middleware/async_logger.go:205-264 | outside a flush the batch of the goroutine never exceeds the batch size, and one of that size is being written |
| AsyncLoggerBatches.ReceiveDecides | go/middleware/async_logger.go:221-241 | a received record goes behind the batch, which is written at once if and only if that fills it and no flush is being swept |
| AsyncLoggerBatches.OthersWrite | go/middleware/async_logger.go:221-263 | a tick, the closed buffer and the end of a sweep have even a short batch written before anything else is received |
| AsyncLoggerBatches.WriteExactly | go/middleware/async_logger.go:286-299 | one write hands the whole batch to a batching sink and the first record to any other |
| AsyncLoggerDelivery.InOrder | go/middleware/async_logger.go:205-264 | when only the drain goroutine takes from the buffer, sink, batch and buffer joined are the accepted records in order |
| AsyncLoggerDelivery.FlushDelivers | go/middleware/async_logger.go:142-161 | when Flush returns by the ack or the done path, each record accepted before the call is in the sink or held by a caller inside drainBufferedSync; all are in the sink if and only if no such caller holds one of them |
| AsyncLoggerCalls.FlushExactly | go/middleware/async_logger.go:142-161 | a Flush called while the goroutine runs delivers every earlier record in every continuation, if and only if at the call no caller holds a record and the buffer is empty |
| AsyncLoggerCalls.FlushWithoutStopExactly | go/middleware/async_logger.go:142-161 | in the continuations without Stop, if and only if no caller holds a record and the buffer is empty or no caller is reading it |
| AsyncLoggerCalls.IdleFlushExactly | go/middleware/async_logger.go:142-150 | a Flush that finds no goroutine running delivers in every continuation, if and only if every record was in the sink before the call |
| AsyncLoggerCalls.GuardedStays | go/middleware/async_logger.go:142-284 | while the goroutine runs and Stop is not called, no step lets a caller take a record that was beyond the reach of callers |
| AsyncLoggerCalls.DriveFlush | go/middleware/async_logger.go:205-264 | the goroutine alone brings a waiting Flush to its end, whatever a caller inside drainBufferedSync holds meanwhile |
| AsyncLoggerRuns.AckedFlushMayReturnEarly | go/middleware/async_logger.go:138-161 | a run in which an acknowledged Flush returns before an earlier record is in the sink, because another caller holds it |
| AsyncLoggerDelivery.IdleFlushDelivers | go/middleware/async_logger.go:142-150 | for a Flush that returned by any path: every earlier record is in the sink if and only if neither the goroutine's batch nor a caller holds one |
| AsyncLoggerRuns.IdleFlushMayReturnEarly | go/middleware/async_logger.go:138-150 | a run in which Flush after the start of Stop returns before the goroutine wrote an earlier record |
| AsyncLoggerDelivery.StopDelivers | go/middleware/async_logger.go:163-184 | when the Stop that closes the buffer returns, the goroutine is gone and buffer and batch are empty; when any Stop returns to such a state, with nobody inside drainBufferedSync the sink holds exactly the accepted records, once each, and in order when only the goroutine drained |
| AsyncLoggerStops.StopWaitsExactly | go/middleware/async_logger.go:163-184 | when a Stop has returned the goroutine has exited, in every continuation, if and only if it is the first Stop or the goroutine was gone at the call |
| AsyncLoggerStops.StopFlushesExactly | go/middleware/async_logger.go:163-184 | when a Stop has returned every record accepted before it is in the sink, in every continuation, if and only if at the call no caller holds one, the buffer is empty, and the logger was not stopped or the batch is empty too |
| AsyncLoggerStops.DriveStop | go/middleware/async_logger.go:166-264 | the goroutine and the closing caller bring a Stop to its end, whatever another caller inside drainBufferedSync holds meanwhile |
| AsyncLoggerStops.StopExactly | go/middleware/async_logger.go:166-184 | a Stop leaves buffer and batch empty in every continuation, if and only if it is the first, or both were empty at its call and no Log could still send |
| AsyncLoggerRuns.SecondStopMayReturnEarly | go/middleware/async_logger.go:168-171 | a run in which a second Stop returns while the goroutine still holds a record |
| AsyncLoggerRuns.SecondStopMayNotWait | go/middleware/async_logger.go:168-171 | a run in which a second Stop returns with nothing left to write but the goroutine still running |
| AsyncLoggerRuns.ClosingStopMayReturnEarly | go/middleware/async_logger.go:163-184 | a run in which the closing Stop returns while a Flush still holds an accepted record |
| AsyncLoggerRuns.PanicStep | go/middleware/async_logger.go:107-121 | in a reachable state the only step that can panic is a Log sending on a closed buffer; no close happens twice |
| AsyncLoggerRuns.PanicExactly | go/middleware/async_logger.go:107-121 | a run can have panicked, or be about to, only if Stop closed the buffer while some Log was between its check and its send |
| AsyncLoggerRuns.PanicReachable | go/middleware/async_logger.go:116-120 | and whenever the buffer is closed under such a Log, its send does panic |
| AsyncLoggerProgress.DrainNeverStuck | go/middleware/async_logger.go:205-264 | the running goroutine has an enabled step unless it waits for records in its outer select |
| AsyncLoggerProgress.NeverStuck | go/middleware/async_logger.go:142-184 | while a caller is inside a call, some step that is neither a new call nor a tick is enabled on its behalf |
| AsyncLoggerProgress.PlayIsBounded | go/middleware/async_logger.go:142-284 | the number of steps without new calls or ticks is bounded by a measure of the state |
| AsyncLoggerProgress.CallsComplete | go/middleware/async_logger.go:142-284 | from every reachable state, steps without new calls or ticks end after a bounded number, and then every call has finished unless the logger panicked |
| MemoryPages.AllLinks | go/memory/page/page.go:71-81 | frontmatter links then prose links, each link once, at its first occurrence |
| MemoryPages.LinksAt | go/memory/page/page.go:71-81 | the links of a page are those at the positions where a link occurs first, in that order, frontmatter before prose |
| MemoryPages.LinkGraphExact | go/memory/query.go:80-87 | the graph of a predicate has a link exactly where a stored page carries it in frontmatter or prose, without repetition |
| MemoryPages.VisitPage | go/memory/query.go:80-95 | one page adds exactly its unseen targets to the seen set, the next frontier and the listing |
| MemoryPages.VisitFrontier | go/memory/query.go:77-97 | one round adds exactly the unseen successors of the frontier |
| MemoryPages.ClosureQuery | go/memory/query.go:64-100 | lists exactly the ids other than the start that links of the predicate reach, each once, in non-decreasing depth, each with the true shortest link distance, on any graph and with dangling targets; an unknown start is an error |
| Prerequisites.KahnTurn | go/memory/query.go:182-194 | one turn of the queue keeps Kahn's invariant and follows the specification, whatever order the dependents were collected in |
| Prerequisites.WalkDescends | go/memory/query.go:158-206 | from an id of the ordered part every chain of prerequisites goes strictly backwards in the order and never repeats |
| Prerequisites.LeftoverWalk | go/memory/query.go:158-206 | from an id left over there are chains of prerequisites of any length |
| Prerequisites.RemnantExact | go/memory/query.go:195-205 | an id is left over if and only if a prerequisite cycle is reachable from it |
| Prerequisites.RemnantMeansCycle | go/memory/query.go:156-206 | the leftovers are exactly the ids that reach a cycle, and there are some if and only if the links have a cycle |
| Prerequisites.TopologicalCorrect | go/memory/query.go:158-206 | the result lists each id once; in its Kahn part every id comes after all its in-set prerequisites; the rest is the leftovers in alphabetical order; without a cycle the whole result is prerequisites-first |
| PrerequisiteTies.TiesExactly | go/memory/query.go:174-194 | of two ordered ids the one whose last prerequisite was listed earlier comes first, and the alphabetically smaller one if the same id was the last for both |
| PrerequisiteTies.OrderedIsTheOnly | go/memory/query.go:158-194 | every prerequisites-first list of the same ids with that tie rule is the one computed |
| Sorting.StringLessExactly | go/memory/query.go:180-187 | alphabetical order: at the first position where two strings differ the smaller one ends or has the smaller character |
| Prerequisites.CountOne | go/memory/query.go:162-172 | the indegree of an id is its number of distinct in-set prerequisites, and it is entered once under each of them |
| Prerequisites.CountPrerequisites | go/memory/query.go:159-173 | after the counting loop, in any order of the ids, every indegree counts the missing prerequisites and every dependents list is complete |
| Prerequisites.InitiallyReady | go/memory/query.go:174-180 | the start of the queue is the ids without in-set prerequisites, in alphabetical order |
| Prerequisites.CountOff | go/memory/query.go:188-193 | counting off lowers each dependent by one and queues exactly those that reach zero, in order |
| Prerequisites.Leftovers | go/memory/query.go:195-203 | the appended rest is the ids not listed, in alphabetical order |
| Prerequisites.TopoByPrerequisite | go/memory/query.go:158-206 | the loops over maps, in any iteration order, compute the one sequence of the specification |
| LearningPath.LearnedIsLeast | go/memory/query.go:108-134 | the relevant ids are the least set that holds the seeds and is closed under prerequisite links |
| LearningPath.CloseOver | go/memory/query.go:116-134 | the worklist computes that set on any graph, whatever order the seeds come in |
| LearningPath.FindSkills | go/memory/query.go:108-115 | the seeds are the pages that carry an appropriateness link to the role |
| LearningPath.StepsFor | go/memory/query.go:141-151 | one step per id in order, with the type and first label of its page, empty where the page or the label is missing |
| LearningPath.Query | go/memory/query.go:104-153 | the path is a function of the pages alone: the least closed set in prerequisite order, one step each with the type and first label of its page, empty when it has none; an empty role is an error |
| LearningPath.PathIsLearnable | go/memory/query.go:104-206 | without a cycle, everything a listed page requires is listed before it |
| Levenshtein.DistSymmetric | go/memory/ontology/tbox.go:215-234 | the distance is symmetric |
| Levenshtein.DistZero | go/memory/ontology/tbox.go:215-234 | it is zero if and only if the inputs are equal |
| Levenshtein.DistTriangle | go/memory/ontology/tbox.go:215-234 | it satisfies the triangle inequality |
| Levenshtein.ScriptOfLength | go/memory/ontology/tbox.go:215-234 | there is an edit script of exactly that length |
| Levenshtein.NoShorterScript | go/memory/ontology/tbox.go:215-234 | no edit script is shorter |
| Levenshtein.DistIsShortest | go/memory/ontology/tbox.go:215-234 | it is the length of a shortest script of insertions, deletions and substitutions |
| Levenshtein.FillRow | go/memory/ontology/tbox.go:222-230 | one pass overwrites the current row with the distances of the next prefix |
| Levenshtein.Distance | go/memory/ontology/tbox.go:215-234 | the two-row loop that swaps its rows returns the length of a shortest edit script |
| Ontology.Nearest | go/memory/ontology/tbox.go:175-204 | as many known terms as asked for or known, each once; along the list and against every known term left out, the shortest edit script from the lower-cased local name looked for never gets shorter, and at equal length the IRI comes first alphabetically |
| Ontology.LocalNameExactly | go/memory/ontology/tbox.go:206-213 | the local name is what follows the last number sign unless that is missing or last, else what follows the last slash likewise, else the whole IRI |
| Ontology.Adjacency | go/memory/ontology/validate.go:192-197 | the adjacency has a link exactly for each triple of the predicate |
| Ontology.IsSubclassOf | go/memory/ontology/tbox.go:136-155 | true if and only if the ancestor is reachable by zero or more subclass links, on cyclic graphs and with repeated queue entries |
| Ontology.HeadDistance | go/memory/ontology/validate.go:198-211 | in the broader worklist the first unseen queue entry carries its true distance, although the queue may repeat entries |
| Ontology.TransitiveBroader | go/memory/ontology/validate.go:191-212 | each concept reachable by broader links other than the subject, once, nearest first, on any graph |
| Ontology.InferSymmetricRelated | go/memory/ontology/validate.go:216-236 | returns exactly the missing inverse pairs, each once, although pairs are inserted into the set being iterated and may or may not be visited |
| Ontology.InferredMakesSymmetric | go/memory/ontology/validate.go:214-236 | the triples together with the inferred ones are symmetric, and each inferred one was missing with its inverse present |
| Civil.EraIsFloor | rust/agentware-kei/src/jobs.rs:233-235 | the adjusted truncating division is the floor division, for negative days too |
| Civil.YearOfEraCorrect | rust/agentware-kei/src/jobs.rs:235-238 | for every day of an era the formula yields a year in 0..399 and a day within that year, the 366th only in leap years |
| Civil.CivilDateInverted | rust/agentware-kei/src/jobs.rs:232-251 | for every day number the result is a valid Gregorian date and the days-from-date sum gives the day number back |
| Civil.CivilDateSuccessor | rust/agentware-kei/src/jobs.rs:232-251 | the date of day d+1 is the calendar successor of the date of day d |
| Civil.CivilDateIsCalendar | rust/agentware-kei/src/jobs.rs:232-251 | the closed form equals a calendar that counts one day at a time from 1970-01-01, forwards and backwards |
| Civil.DaysFromDateInverted | rust/agentware-kei/src/jobs.rs:232-251 | every valid date is the result for exactly the day number of its days-from-date sum |
| Civil.TimeFieldsRecombine | rust/agentware-kei/src/jobs.rs:247-249 | hour, minute and second are in range and recombine to the seconds of the day; the casts to 32 bits lose nothing when the hours fit |
| JobId.PaddedBack | rust/agentware-kei/src/jobs.rs:224-227 | zero-padded decimal output gives its number back |
| JobId.FormatInjective | rust/agentware-kei/src/jobs.rs:224-227 | the formatted text determines all seven fields, also when the year has more than four digits |
| JobId.SameIdExactly | rust/agentware-kei/src/jobs.rs:217-228 | two job ids are equal if and only if they were made in the same second with counters equal modulo 10000 |
| JobId.FormatReads | rust/agentware-kei/src/jobs.rs:224-227 | read from the end the text has four digits of the number, a hyphen, two digits each of second, minute, hour, day and month, and the year in at least four |
| JobId.IdReads | rust/agentware-kei/src/jobs.rs:217-228 | the id made in a second reads the calendar date and the time of day of that second and the counter modulo 10000 |
| Compaction.TieredCompact.constructor | go/llm/compact.go:40-46 | the defaults: two recent steps, tool results cut at 200 bytes |
| Compaction.TieredCompact.ProtectedSteps | go/llm/compact.go:137-170 | the last KeepRecent distinct step indices in order of first occurrence |
| Compaction.TieredCompact.Phase1Compact | go/llm/compact.go:179-211 | drops unprotected nudges and cuts unprotected tool results, against its own set of recent steps; `CompactsExactly` says what is left, position by position |
| Compaction.TieredCompact.Phase2Compact | go/llm/compact.go:213-236 | drops unprotected tool results, against its own set of recent steps |
| Compaction.TieredCompact.Phase3Compact | go/llm/compact.go:238-261 | drops unprotected reasoning and text, against its own set of recent steps |
| Compaction.TieredCompact.Compact | go/llm/compact.go:52-86 | the result is the first stage, the input included, that meets the target, else the third; lastPhase names it; an empty conversation is an error that leaves lastPhase alone |
| CompactionGuarantees.StageIsSublist | go/llm/compact.go:179-261 | after any number of phases the result is an order-preserving sub-list that starts with the first two messages verbatim and differs only by cut tool results |
| CompactionGuarantees.KeptKeepsRecent | go/llm/compact.go:172-261 | a phase keeps every message of the steps it takes to be recent, verbatim and in order |
| CompactionGuarantees.RecentStable | go/llm/compact.go:137-261 | a phase that sees the recent steps last leaves the recomputed set of recent steps unchanged |
| CompactionGuarantees.RecomputedAlike | go/llm/compact.go:137-261 | exactly when every phase recomputes the same recent steps for every choice of message types: if and only if no older step resumes after a recent one began, except the step of one of the first two messages |
| CompactionGuarantees.LateStepBreaks | go/llm/compact.go:137-211 | for every conversation in which an older step resumes too late there are message types for which the first phase changes the recent steps |
| CompactionLosses.LateStepLoses | go/llm/compact.go:137-236 | for every such conversation there are message types for which two phases lose every message of a recent step |
| CompactionLosses.SurvivesExactly | go/llm/compact.go:52-86 | every message of the recent steps survives any number of phases, whatever the messages are, if and only if no older step resumes after a recent one began, except the step of one of the first two messages |
| CompactionGuarantees.NonDecreasingIsDone | go/llm/compact.go:137-170 | step indices that never fall meet the condition |
| CompactionGuarantees.StageKeepsRecent | go/llm/compact.go:52-86 | under the condition, after any number of phases the recent steps and all their messages are those of the original conversation |
| CompactionGuarantees.RecentSurvives | go/llm/compact.go:52-86 | under the condition a compaction returns every message of the recent steps and the first two messages verbatim |
| CompactionExact.CompactsExactly | go/llm/compact.go:52-86 | under the condition, a compaction that stopped at phase k returns the messages at certain positions in order; a position is missing if and only if it is past the first two, not of a recent step, and a nudge with k at least 1, a tool result with k at least 2, or reasoning or text with k equal to 3; at phase 1 an older tool result has its first bytes only, and every other message is verbatim |
| CompactionExact.RecentExactly | go/llm/compact.go:137-170 | a step is recent if and only if fewer than KeepRecent steps begin after it |
| CompactionLosses.RecentMayBeLost | go/llm/compact.go:137-261 | a family of five-message conversations with an interleaved step where three phases lose a message of the recent step |
| CompactionGuarantees.StageIsClean | go/llm/compact.go:179-261 | under the condition, after phase k past index 1 no unprotected message of the types dropped by phases 1 to k remains |
| CompactionGuarantees.CompactTwice | go/llm/compact.go:52-86 | under the condition, compacting a compacted conversation with the same target and any counter returns it unchanged |
| CompactionGuarantees.DefaultCounter | go/llm/context_window.go:185-195 | the loop sums, per message, a quarter of its bytes rounded down, its role, four, and each tool call's name and one |
| CompactionGuarantees.TokensAdd | go/llm/context_window.go:185-195 | one more message adds a quarter of its bytes rounded down, four, the bytes of its role and of its tool names, and one per tool call |
| CompactionGuarantees.StageCostsNoMore | go/llm/context_window.go:185-195 | no number of phases raises the default count |
| ContextWindow.ContextWindowManager.constructor | go/llm/context_window.go:27-68 | the default counter when none is given, the default thresholds when none are, else the given ones in rising order, and empty bookkeeping |
| ContextWindow.ContextWindowManager.Target | go/llm/context_window.go:98-118 | the target is the whole part of window times ratio, rounded towards zero |
| ContextWindow.ContextWindowManager.Compact | go/llm/context_window.go:111-153 | compacts to the target of its window and ratio, reports counts and phase truthfully, and resets its bookkeeping exactly when it compacted |
| ContextWindow.ContextWindowManager.CheckThresholds | go/llm/context_window.go:155-183 | judged by the known token count, or the counter when there is none: fires the first reached threshold that had not fired, and only that; none if there is none |
| ContextWindow.CompactionHelps | go/llm/context_window.go:111-153 | with the default counter the result costs no more than the input and meets the target unless phase 3 was reached |
| RateLimiter.Limiter.SetWindow | go/middleware/ratelimit.go:26-30 | sets one key's window and nothing else |
| RateLimiter.Limiter.Allow | go/middleware/ratelimit.go:32-58 | the decision and the new counters, per key: a call opens a window when there is none or it is over, else counts up to the limit |
| RateLimiter.Limiter.Reset | go/middleware/ratelimit.go:60-64 | forgets one key's counter and nothing else |
| RateLimiter.RunHolds | go/middleware/ratelimit.go:32-58 | over every run with a clock that never falls, the counter of a key counts the allowed calls of its open window, and every interval as long as the window stays within the bound, whatever other keys do; with a negative window every call is allowed |
| RateLimiter.AtMostTwiceTheLimit | go/middleware/ratelimit.go:32-58 | any closed interval no longer than the window holds at most 2*limit - 1 allowed calls of a key |
| RateLimiter.BoundIsReached | go/middleware/ratelimit.go:32-58 | for every limit of at least one and every positive window there is such a run, with one limit, no reset and a clock that never falls, that reaches that bound |
| RateLimiter.DeniedExactly | go/middleware/ratelimit.go:32-58 | each open window that is not negative allows at most limit calls, and a call is denied if and only if its window was opened at most the window length ago and limit calls were allowed in it |
| RateLimiter.LastWindowSet | go/middleware/ratelimit.go:26-39 | the window of a key is the last one set for it, and a minute when none was or it was zero |
| RateLimiter.BoundSinceStart | go/middleware/ratelimit.go:19-58 | from a new limiter, after any events that leave a key without calls since its last reset, the bound holds for the window set for it last, or a minute |
| RateLimiter.DeniedSinceStart | go/middleware/ratelimit.go:19-58 | and its calls are denied if and only if its open window is no older than that and has allowed limit calls |
| RuntimeSocket.StepKeepsInv | go/kei/runtimesocket/client.go:183-319 | every locked region, request or answer, of any caller and with any answer of the daemon, keeps: cached sessions and sessions in use were issued for their identity, and attempts and sends stay counted |
| RuntimeSocket.RunInv | go/kei/runtimesocket/client.go:183-319 | the invariant holds after every run |
| RuntimeSocket.OwnSessionOnly | go/kei/runtimesocket/client.go:183-319 | in every run each authorize request of a call carries a session id the daemon issued for that call's own identity, with at most two authorize sends, two session requests and one reopen |
| RuntimeSocket.IdentityKept | go/kei/runtimesocket/authorize.go:34-46 | the identity of a call is the configured source and the user of the request that began it |
| RuntimeSocket.BlankRefused | go/kei/runtimesocket/authorize.go:34-46 | a call for no user, or with a blank source or user, is refused without a request; any other looks for a session of its identity |
| RuntimeSocket.CachedIsUsed | go/kei/runtimesocket/client.go:183-193 | a call for a user with a cached session sends that session id and requests none |
| RuntimeSocket.GrantedIsCached | go/kei/runtimesocket/client.go:194-216 | without one it requests a session once, sends the id granted, and caches the session for that identity and no other |
| RuntimeSocket.AnswerExactly | go/kei/runtimesocket/client.go:291-319 | what an answer leads to: the first that names the session as unknown, by error code or by reason code, starts over; a well-formed one otherwise is the answer of the call; any other refuses with its class |
| RuntimeSocket.SecondSendOnlyWhenAsked | go/kei/runtimesocket/client.go:291-319 | a call sends twice only if its first answer named the session as unknown |
| RuntimeSocket.AskedSendsAgain | go/kei/runtimesocket/client.go:250-319 | and after such an answer there is a continuation in which it sends again, with the session another caller opened meanwhile or else the one it is granted |
| RuntimeSocket.ForgetSparesNewer | go/kei/runtimesocket/client.go:241-248 | forget removes a cached session if and only if it is the caller's own and has the stale id, so a session issued later survives unless the daemon issued the same id again |
| RuntimeSocket.ReissuedIsForgotten | go/kei/runtimesocket/client.go:241-248 | a run in which forget discards a newer session because the daemon issued the stale id again |
| RuntimeSocket.ReopenShares | go/kei/runtimesocket/client.go:183-253 | a caller whose stale session was already replaced by another caller takes the replacement without asking the daemon |
| RuntimeSocket.FailClosed | go/kei/evaluator/evaluator.go:135-222 | over every run a finished call is allowed if and only if the last answer to it is an object of the authorize schema with a decision text that normalizes to allow or permit, and is not a first answer with an unknown session |
| RuntimeSocket.DeniedByClass | go/kei/evaluator/evaluator.go:170-222 | a finished call that was refused is denied with the class of the refusal; one whose text is deny, empty, enrollment_required or anything else is denied with the class of that text |
| RuntimeSocket.TextDecides | go/kei/evaluator/evaluator.go:57-61 | on a well-formed answer the action, the class and the detail follow from the normalized text: allow and permit allow, every other denies |
| RuntimeSocket.RuleNamed | go/kei/evaluator/evaluator.go:184-228 | the rule of a decision is the policy id, else the policy, of the answer, else the name of the proxy |
| GuardrailsConfig.NewGuardrails | go/middleware/guardrails/facade.go:101-118 | a facade exists if and only if the configuration is acceptable, with its defaults filled in, and every session starts with nothing recorded, completed or violated |
| Guardrails.Facade.HasRecordedPrerequisite | go/middleware/guardrails/facade.go:198-213 | true if and only if some recorded call of the session is of the required tool and, when the rule names an argument, both calls carry it with equal values |
| Guardrails.Facade.FindMissing | go/middleware/guardrails/facade.go:178-196 | the unmet prerequisites of a call, each once, in rule order |
| Guardrails.Facade.CanExecute | go/middleware/guardrails/step_enforcer.go:40-59 | the required steps not completed in the session, in order |
| Guardrails.Facade.AllKnown | go/middleware/guardrails/response_validator.go:53-78 | true if and only if every call names a configured tool |
| Guardrails.Facade.JudgeCalls | go/middleware/guardrails/facade.go:131-153 | the first call that is blocked or lacks a prerequisite decides |
| Guardrails.Facade.Check | go/middleware/guardrails/facade.go:122-155 | the result and the new violation count of the session; no other session changes |
| Guardrails.Facade.Record | go/middleware/guardrails/facade.go:159-173 | a success adds the call and its step to the session, a failure adds nothing; no other session changes |
| GuardrailsRuns.ViewIsHistory | go/middleware/guardrails/facade.go:122-173 | after every run the state of a session is its history: its successes in order, their tools, and its number of violating checks |
| GuardrailsRuns.ExecuteExactly | go/middleware/guardrails/facade.go:122-155 | a check executes, with its calls, if and only if it has calls, all of configured tools, and for each every rule of its tool is met by an earlier success of the required tool in the same session, with an equal value of the argument the rule names, and for the terminal tool every required step succeeded earlier in the session |
| GuardrailsRuns.BlockedExactly | go/middleware/guardrails/facade.go:131-138 | a check is blocked, and lists missing steps, if and only if its first call that is not ready is one of the terminal tool with a required step not done |
| GuardrailsRuns.LackingExactly | go/middleware/guardrails/facade.go:139-152 | a check lists missing prerequisites if and only if its first call that is not ready has every required step: those of that call |
| GuardrailsRuns.StepsListed | go/middleware/guardrails/step_enforcer.go:40-59 | the missing steps are exactly the required steps without an earlier success in the session, in their order |
| GuardrailsRuns.PrerequisitesListed | go/middleware/guardrails/facade.go:178-196 | the missing prerequisites are exactly the tools that unmet rules of the call require, each once, in the order of the first such rule |
| GuardrailsRuns.FatalExactly | go/middleware/guardrails/facade.go:139-152 | a check is fatal if and only if its first call that is not ready lacks a prerequisite and no required step, and the checks of the session of which that is true, this one included, exceed the limit; their number is reported |
| GuardrailsRuns.SessionsIsolated | go/middleware/guardrails/facade.go:122-173 | deleting the operations of all other sessions from a run does not change a session |
| GuardrailsRuns.RequiredFirst | go/middleware/guardrails/facade.go:178-213 | if only executed calls are recorded, whatever a recorded tool requires was recorded before it |
| GuardrailsRuns.CircularNeverRecorded | go/middleware/guardrails/facade.go:178-213 | then no tool of a set in which each requires another of the set is ever recorded |
| GuardrailsRuns.CycleNeverRecorded | go/middleware/guardrails/facade.go:178-213 | then no tool on a prerequisite cycle is ever recorded |
| GuardrailsConfig.CheckTools | go/middleware/guardrails/facade.go:219-228 | accepts a list of tools if and only if no name is empty or repeated |
| GuardrailsConfig.CheckRules | go/middleware/guardrails/facade.go:237-247 | accepts the rules if and only if each names two different known tools and no two have the same key |
| GuardrailsConfig.ValidateConfig | go/middleware/guardrails/facade.go:215-261 | accepts a configuration if and only if it meets every check, and then defaults the limit and the tier into range |
| GuardrailsConfig.KeyUniqueExactly | go/middleware/guardrails/facade.go:242-246 | no other rule has the key of a rule, if and only if none of its three fields has a NUL character |
| GuardrailsConfig.RepeatsExactly | go/middleware/guardrails/facade.go:237-247 | with tool names free of NUL, exactly repeated rules are refused as duplicates |
| GuardrailsConfig.DifferentRulesRefused | go/middleware/guardrails/facade.go:237-247 | a configuration that is refused although its two rules differ and each alone is accepted |
| Manifest.MarshalManifest | go/toolspec/toolspec.go:83-141 | succeeds if and only if every spec passes the checks of toWire, with one object per spec in order |
| Manifest.UnknownAt | go/toolspec/manifest_v3.go:183-187 | of several unknown fields the alphabetically first is reported, whatever order the object is iterated in |
| Manifest.DecodeLoop | go/toolspec/manifest_v3.go:96-105 | decoding stops at the first tool that fails and reports that error |
| Manifest.ValidateLoop | go/toolspec/manifest_v3.go:106-119 | validation stops at the first tool that fails or repeats a name and reports that error |
| Manifest.ParseManifestV3 | go/toolspec/manifest_v3.go:70-121 | the whole parse, with decoding of all tools before validation |
| ManifestRoundTrip.ToolBack | go/toolspec/manifest_v3.go:177-387 | decoding the object written for a spec yields the spec field by field |
| ManifestRoundTrip.ToolValid | go/toolspec/manifest_v3.go:392-487 | what toWire accepts passes validation if and only if its resource types are named, and then comes back normalised |
| ManifestRoundTrip.MarshalThenParse | go/toolspec/manifest_v3.go:70-121 | a marshalled list of specs parses if and only if names are distinct and resource types are named, and then to the same specs in order: parameters emptied, enabled defaulted to true |
| ManifestRoundTrip.ParseThenMarshal | go/toolspec/toolspec.go:83-141 | the specs of every accepted document marshal again and re-parse to the same specs apart from parameters |
| ManifestExact.ToolExactly | go/toolspec/manifest_v3.go:177-487 | a tool is accepted as a spec if and only if the object says so field by field: no unknown field, the five texts not empty, a known operation class, exactly one route with both its texts, the lists that route allows, parameters empty and enabled true when left out, and a null flag false |
| ManifestExact.ParsesExactly | go/toolspec/manifest_v3.go:70-121 | a document parses to a list of specs if and only if it has the schema and the tools and nothing else, one accepted tool per spec in order, and no name twice |
| AsciiEscape.UnitsSpell | go/kei/evaluator/resources.go:109-113 | the one or two UTF-16 code units of a character spell that character, whatever follows |
| AsciiEscape.Hex4Back | go/kei/evaluator/resources.go:102-117 | four lower-case hexadecimal digits are ASCII and parse back to the code unit |
| AsciiEscape.AsciiEscapeGo | go/kei/evaluator/resources.go:102-117 | the Go loop computes the escape of the text |
| AsciiEscape.AsciiEscapeRust | rust/agentware-kei/src/evaluator.rs:393-402 | the Rust loop computes the same text |
| AsciiEscape.EscapeIsAscii | go/kei/evaluator/resources.go:102-117 | the output is ASCII, and ASCII input is unchanged |
| AsciiEscape.ScanPreserved | go/kei/evaluator/resources.go:102-117 | the contents of a JSON string, as code units, and where it ends are the same before and after escaping |
| AsciiEscape.MeaningPreserved | go/kei/evaluator/resources.go:100-117 | for every JSON text, the sequence of punctuation and string contents is the same before and after escaping |
| CallTemplate.PathEscapeIsPlain | go/kei/calltemplate/request.go:176-176 | percent-encoding emits only unreserved and path-segment characters and percent signs, so never a brace |
| CallTemplate.PathEscapeBack | go/kei/calltemplate/request.go:176-176 | percent-decoding gives the argument back |
| CallTemplate.PathEscapeExactly | go/kei/calltemplate/request.go:175-176 | byte by byte, letters, digits and the marks a path segment may hold stay and any other byte becomes a percent sign and two upper-case hexadecimal digits |
| CallTemplate.CutUnique | go/kei/calltemplate/request.go:145-154 | finding the first brace pair is the only way to split a text there |
| CallTemplate.LookupExactly | go/kei/calltemplate/request.go:156-176 | a placeholder is filled if and only if it is declared as a path argument and given as text that is not empty; the value decodes to that text and has no slash, question mark, number sign or brace; each way to fail has its own error |
| CallTemplate.FillPathPlaceholders | go/kei/calltemplate/request.go:140-180 | the repeated find-and-replace terminates and equals a single left-to-right expansion of the template |
| CallTemplate.ParseSpells | go/kei/calltemplate/request.go:140-180 | the pieces of a template, with the unclosed rest, spell the template |
| CallTemplate.ExpandExactly | go/kei/calltemplate/request.go:140-180 | the expansion fails with the error of the first bad placeholder, else for an unclosed brace, else is the pieces with each placeholder replaced by its encoded argument |
| CallTemplateSegments.StructureKept | go/kei/calltemplate/request.go:175-177 | split at slashes, or at any other delimiter that encoding removes, the filled URL is the template split there with the placeholders of each part replaced |
| CallTemplateSegments.NothingLeft | go/kei/calltemplate/request.go:144-179 | no open brace is left |
| CallTemplateSegments.DotSegmentsExactly | go/kei/calltemplate/request.go:175-177 | a segment of the filled URL is a dot segment if and only if the segment of the template with the bare arguments is |
| CallTemplateSegments.ParentSegment | go/kei/calltemplate/request.go:175-177 | a template with a lone placeholder and an argument of two dots, whose filled URL has a parent segment |

## Left out

- Go's memory model: each locked region, channel operation and sink call is one step of the logger and of the socket client.
- Panics inside a sink or a callback, and `OnDrop` callbacks of the logger.
- The unbuffered flush request is one rendezvous step of the logger; the ack channel is the served caller's program counter.
- The remaining socket endpoints (credential release, models, streaming, policy bundle, tools), HTTP status and JSON decoding: the daemon's answer is an arbitrary value of an answer type.
- Enrollment and connect payloads, reason codes and hints of a decision: copied values that no branch reads.
- Unicode lower-casing in term search and in decision text is a parameter.
- TBox loading, page parsing, Turtle, the external SKOS validator and the other structured queries.
- Civil.CivilDateIsCalendar: integers are unbounded, so overflow of 64-bit day numbers is not modelled.
- JobId.SameIdExactly: the counter is a natural number, so its wrap after 2^63 ids is not modelled, and a clock before 1970 is the code's default of zero seconds.
- Civil.TimeFieldsRecombine: asks that the hours fit in 32 bits, which every second of a day does.
- The rest of the Rust and Go job managers: setters and watch channels.
- `findEligibleEnd` of compaction: its result is never used.
- Alternative compaction strategies and the texts of threshold callbacks; ratios are reals, without floating-point rounding.
- RateLimiter.AtMostTwiceTheLimit: one limit per key and no Reset or SetWindow of that key during the run; the clock never falls.
- RateLimiter.DeniedExactly: says nothing of how many calls a negative window allows, since each call opens a new one.
- Nudge texts and the error tracker of the guardrails, and loading a configuration from JSON text.
- Values of tool-call arguments in the guardrails are an abstract type with equality.
- Error paths of the manifest are lists of keys and indices rather than escaped pointer texts.
- Nearest terms with a negative count: the code slices with it.
- JSON text lexing of the manifest, and files: a document is a JSON value.
- SHA-256 and the canonical serialisation that precede and follow ASCII escaping; input that is not valid UTF-8.
- AsciiEscape.MeaningPreserved: the grammar outside strings is not modelled beyond its ASCII characters, which escaping does not touch.
- Query, header and body arguments of a call template and URL parsing; numbers and composite arguments arrive rendered.
- HTTP, Unix-socket, subprocess and SSE transport, the runtimelink supervisor, reasoning adapters, tool-call formats, the vault, the eval harness and framework adapters.
