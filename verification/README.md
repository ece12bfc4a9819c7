# DAIV: memory, runs, notifications, access and selections

This project models the parts of DAIV that are state machines or algorithms, and proves what they promise:

- **Repository memory** (`Text`, `MemoryModel`, `MemoryRender`, `MemoryPrune`, `MemoryConsolidation`,
  `MemoryRound`, `MemoryApply`, `MemoryHistory`). A round takes an arbitrary list of operations (ADD, UPDATE,
  MERGE, CONFIRM, DISCARD), accepts them greedily with two claim sets, rewrites the entry rows, prunes them to a
  budget of lines and bytes and renders the document. Proved: what a round conserves, that accepted operations
  commute, what pruning guarantees, and what holds over every sequence of rounds from an empty repository.
- **Session runs** (`SessionLock`, `RunQueue`, `RunInterleaving`). The execution slot with heartbeats and stale
  takeover, the queue of runs with its dispatcher, and both submitters and dispatchers taken apart into single
  statements. Proved: timed mutual exclusion with the exact bound, no lost wake-up, first in first out, no double
  enqueue under any interleaving, and that the single statements, undisturbed, amount to the handlers.
- **Batch notifications** (`BatchRollup`). Siblings write an envelope and emit, in any interleaving with crashes
  and re-drives. Proved: exactly one roll-up row per recipient, or none.
- **Chat transcript** (`ChatTurns`). The indexed single pass refines a plain search through the messages.
- **Repository access** (`AccessSync`). The mirror of member listings and the decisions read from it. Proved: a
  level is granted exactly if the deciding listing grants it.
- **Sandbox environments** (`SandboxStore`, `EgressEditor`). Disjoint repository claims and one default in every
  reachable store, agreement of the two resolvers, and the exact condition for the egress editor's round trip.
- **MCP selection and pagination** (`McpSelection`, `Pagination`). Diff and apply are inverse and the diff is
  least; keyset pages neither repeat nor skip, also while the table changes.

Objects whose fields the source updates are classes here, its loops are loops, and each such method is proved
against functions on values; the protocols are step relations over traces. Primary keys are numbers, instants are
numbers on one non-decreasing clock, and the model's answers, the platform's answers, broker failures and crashes
are arbitrary inputs. `Common` holds `Option`, `Result` and two facts about collections.

Four results say exactly when the code meets its promise, because it does not always, and each has an input that
shows the failure:

- The order of `prune_to_budget`'s input shows once two category names outside the document's sections occur
  (`MemoryPrune.OrderShowsExactly`); rounds never bring one about, so in every state they reach their operations
  commute (`MemoryHistory.ReachableRoundsCommute`).
- The thirty minutes of `STALE_RUN_MINUTES` protect a holder exactly if a holder's silence and a write's delay
  together stay within them (`SessionLock.StaleWindowIsExact`).
- An untouched egress editor gives back what was stored exactly for the states the form itself stores
  (`EgressEditor.UntouchedRoundTrip`, `EgressEditor.UntouchedSaveChanges`), and through the browser script only if
  in addition every method list is `*` or the read-only one and no host has anything at its ends that the script
  trims (`EgressEditor.BrowserRoundTrip`). The script puts one of the two lists in place of any other, and its
  `trim` removes U+FEFF, which the form's `strip` keeps: `EgressEditor.BrowserSubstitutes` gives the outcome for
  every state, `EgressEditor.BrowserWidensMethods`, `EgressEditor.BrowserTrimsHosts` and
  `EgressEditor.BrowserRefusesStored` are the inputs.
- `alist_scheduled_jobs` with a repository and limit 0 returns one row where its other path returns none
  (`Pagination.LoopIsTakeUnlessZero`).

Rows are told apart by keys. Creation times and ids never change, so no run or schedule comes twice
(`Pagination.NoRowTwice`), nor is one missed that matches whenever a page is fetched, whatever else about it changes
meanwhile (`Pagination.CompleteWalkReturnsIt`); an environment that is renamed or changes scope between two pages has
another key, and can come twice (`Pagination.RenamedComesTwice`) or be missed.

The docstring of `resolve_env_for_run` describes its second step as looking at every global environment, the code
skips the default there; `SandboxStore.ResolveEnvForRun` is the code's loop proved against the documented chain.

## Model

| member | source | states |
|---|---|---|
| MemoryRender.SortedInOrder | daiv/memory/render.py:48-49 | sorting a set of rows by creation time and id puts them in strictly increasing order |
| MemoryRender.SortedIsUnique | daiv/memory/render.py:41-49 | any list of the same rows in that order is the same list, so the result is determined by the set |
| MemoryRender.RenderMemoryDocument | daiv/memory/render.py:28-45 | grouping in one pass and writing the sections in turn gives a document that depends on the set of entries alone |
| MemoryRender.DocumentSplits | daiv/memory/render.py:43-45 | splitting the document into lines gives back exactly its headings, bullets and blank separators, whatever white space the contents hold |
| MemoryRender.LineCount | daiv/memory/render.py:28-63 | a document of n entries in k non-empty sections has n + 2k - 1 lines, and none when n is 0 |
| MemoryRender.SectionLines | daiv/memory/render.py:28-49 | each category with entries has its heading after the sections before it and an empty line, and under it one bullet for each entry, by creation time and id, with the content on one line |
| MemoryRender.RemovingShrinks | daiv/memory/render.py:28-63 | removing an entry never increases the document's lines or bytes |
| Text.CollapseIsOneLine | daiv/memory/render.py:43 | content with its white space collapsed is a single line |
| Text.WordsMean | daiv/memory/render.py:43 | the words and the white space around and between them make up the text, and some stands between any two words |
| Text.CollapseMeans | daiv/memory/render.py:43 | the bullet has the same words, one blank between any two and none around them |
| Text.CharSize | daiv/memory/render.py:56-58 | the bytes of a character are the fewest whose payload bits hold its code point |
| Text.StripMeans | daiv/memory/schemas.py:20-22 | stripping takes white space from both ends and nothing else |
| MemoryPrune.LargestCategory | daiv/memory/render.py:66-73 | the counter built in one pass and its least key give the category with most bytes, ties going to the earlier section |
| MemoryPrune.PruneToBudget | daiv/memory/render.py:76-96 | the loop terminates and returns what the recursive description keeps and evicts |
| MemoryPrune.PruneSplits | daiv/memory/render.py:89-96 | kept and evicted rows together are exactly the input, each row on one side |
| MemoryPrune.EachEviction | daiv/memory/render.py:76-96 | each eviction was called for by a document over the budget with more than one entry, and took the least recently confirmed entry of the category with most bytes, of the earlier section on a tie |
| MemoryPrune.SectionOrder | daiv/memory/render.py:14-25 | the order that breaks ties is that of the sections in the document |
| MemoryPrune.PruneFits | daiv/memory/render.py:61-91 | the document of what is kept has no more lines and bytes than the budget, or it is of a single entry, and a non-empty list never becomes empty |
| MemoryPrune.PruneKeepsTail | daiv/memory/render.py:52-53 | within a category every evicted entry was confirmed less recently than every kept one, or at the same time and made earlier, or has the smaller key, and they are evicted in that order |
| MemoryPrune.PruneIsFair | daiv/memory/render.py:81-93 | no category keeps more bytes than a category that lost entries kept together with its last victim |
| MemoryPrune.LooserEvictsPrefix | daiv/memory/render.py:76-96 | a looser budget evicts a prefix of what a tighter one evicts |
| MemoryPrune.PruneIgnoresOrder | daiv/memory/render.py:66-96 | with at most one category outside the sections, evictions and survivors do not depend on the input's order |
| MemoryPrune.TwoUnlistedShowOrder | daiv/memory/render.py:70-73 | with two such categories a concrete input evicts different entries in different orders |
| MemoryPrune.OrderShowsExactly | daiv/memory/render.py:14-25 | the order never shows if and only if at most one category name outside the sections can occur |
| MemoryConsolidation.Dedupe | daiv/memory/schemas.py:128-135 | the ids keep their first positions, none is repeated and none is lost |
| MemoryConsolidation.ParsedIsWellTyped | daiv/memory/schemas.py:20-22 | whatever the model answers within the schema, parsing leaves each id once, loses none, and parsing again changes nothing |
| MemoryConsolidation.ParsedMeans | daiv/memory/schemas.py:20-135 | parsing strips the content, keeps ids in order of first mention, and leaves kind, category and reason alone |
| MemoryConsolidation.ShapeFaultIsExact | daiv/memory/schemas.py:137-182 | an operation has no shape error exactly if it carries the targets, content, category or reason its kind needs |
| MemoryConsolidation.AcceptedAreApart | daiv/memory/consolidation.py:79-128 | whatever is proposed, the accepted operations are applicable to the snapshot and no two share an observation or an entry |
| MemoryConsolidation.AcceptanceIsGreedy | daiv/memory/consolidation.py:103-128 | an operation is accepted exactly if it is applicable and shares nothing with an operation accepted before it |
| MemoryConsolidation.WriteAll | daiv/memory/consolidation.py:205-264 | every accepted operation finds its own effect in the final rows, and rows no operation names are unchanged |
| MemoryConsolidation.WrittenKeys | daiv/memory/consolidation.py:213-231 | the rows there afterwards are those there before and one for each ADD, UPDATE and MERGE |
| MemoryConsolidation.CreatedRow | daiv/memory/consolidation.py:249-264 | a new row holds the operation's content and observations, the category asked for or that of the row it replaces, and the round's time twice |
| MemoryConsolidation.ReplacedRow | daiv/memory/consolidation.py:221-227 | a row an UPDATE or MERGE names is superseded by the new row and keeps everything else |
| MemoryConsolidation.ConfirmedRow | daiv/memory/consolidation.py:228-232 | a row a CONFIRM names gains the observations and the time of confirmation and nothing else |
| MemoryConsolidation.UnnamedRow | daiv/memory/consolidation.py:205-247 | a row no operation names stays as it was |
| MemoryConsolidation.WriteIgnoresOrder | daiv/memory/consolidation.py:205-247 | the entry rows written do not depend on the order of the operations |
| MemoryRound.AnswerStarts | daiv/memory/consolidation.py:347-356 | every answer within the schema, parsed and cut at the cap, is a round of the form the other results rely on |
| MemoryRound.RoundForMeans | daiv/memory/consolidation.py:347-356 | the first fifty operations, parsed, make the round with their keys, and those after them are put off in order |
| MemoryRound.DecideIsReady | daiv/memory/consolidation.py:103-138 | what accept lets through can always be written |
| MemoryRound.RoundConserves | daiv/memory/consolidation.py:192-203 | consolidated, discarded and pending add up to the observations, applied and rejected to the operations, and truncated never exceeds pending |
| MemoryRound.AnswerConserves | daiv/memory/consolidation.py:347-356 | for any answer every operation is applied, rejected or put off, nothing is put off unless there are more than fifty, and every observation is accounted for |
| MemoryRound.AcceptedCommute | daiv/memory/consolidation.py:130-203 | applied in any order with the same fresh keys, the accepted operations give the same rows, links, statuses, evictions and document |
| MemoryApply.Repository.Supersede | daiv/memory/models.py:126-134 | the row leaves the active ones and names its successor; its content, category, times and provenance stay, and every other row is unchanged |
| MemoryApply.Repository.SupersedeAll | daiv/memory/consolidation.py:172-173 | evicted rows are retired with no successor, every other row stays |
| MemoryApply.Repository.SupersedeEach | daiv/memory/consolidation.py:222-225 | every target is retired in favour of the new entry, every other row stays |
| MemoryApply.Repository.Mark | daiv/memory/consolidation.py:165-168 | exactly the named observations that exist join those with the status, those with any other status lose only them, and no row is added or removed |
| MemoryApply.ConsolidationRound.Accept | daiv/memory/consolidation.py:103-128 | the loop's two claim sets decide as the greedy description does |
| MemoryApply.ConsolidationRound.Write | daiv/memory/consolidation.py:205-247 | the loop leaves the rows that satisfy the order-free description and returns the sources in order |
| MemoryApply.ConsolidationRound.Apply | daiv/memory/consolidation.py:130-203 | a whole round in place leaves the store and the outcome of the round's description, and nothing changes if no operation survived |
| MemoryApply.RunConsolidationRound | daiv/memory/consolidation.py:339-359 | an answer is parsed, cut at the cap and applied in place as its round, and an empty one changes nothing |
| MemoryHistory.EveryRowHasAFate | daiv/memory/consolidation.py:215-245 | each row after the writes is new, replaced by one operation, restated by one, or untouched |
| MemoryHistory.KeptAreActive | daiv/memory/consolidation.py:170-176 | after a round the active entries are exactly what pruning kept |
| MemoryHistory.RowAfterRound | daiv/memory/consolidation.py:165-180 | pruning leaves what it keeps as written, and supersedes the other active rows by nothing, without touching what they say |
| MemoryHistory.ObservationsAfter | daiv/memory/consolidation.py:165-168 | an observation is discarded if an accepted operation discards it, consolidated if another is made from it, else as before |
| MemoryHistory.OutcomeCounts | daiv/memory/consolidation.py:192-203 | the round's report counts the observations by what became of them, the put off ones among those still pending, and the operations accepted and rejected |
| MemoryHistory.NextMeans | daiv/memory/consolidation.py:278-359 | an extraction adds pending observations and touches nothing else, a consolidation is its round |
| MemoryHistory.NextKeeps | daiv/memory/consolidation.py:130-203 | every step keeps provenance, lineage and the rendered document, and changes rows only as allowed |
| MemoryHistory.HistoryEvolves | daiv/memory/models.py:82-139 | over any history content and category never change, an entry leaves ACTIVE at most once, settled observations stay settled, and a repository with an active entry keeps one |
| MemoryHistory.DocumentIsCurrent | daiv/memory/consolidation.py:362-374 | the stored document is always the render of the active entries and would never be discarded |
| MemoryHistory.NothingToReplay | daiv/memory/models.py:32-34 | every consolidated observation is linked to exactly one entry and every other one to none |
| MemoryHistory.SuccessorIsLater | daiv/memory/models.py:93-100 | a row is superseded in the very step that makes its successor |
| MemoryHistory.BornLater | daiv/memory/models.py:93-100 | a successor has the category of its row and first appears strictly later |
| MemoryHistory.Latest | daiv/memory/models.py:126-134 | following successor links terminates, in a row of the same category that has no successor |
| MemoryHistory.ReachableRoundsCommute | daiv/memory/consolidation.py:130-203 | in every state a history reaches the accepted operations of any round commute |
| SessionLock.Session.ClaimFree | daiv/sessions/locks.py:57-61 | one update takes the slot exactly if it was free |
| SessionLock.Session.TakeOver | daiv/sessions/locks.py:77-79 | the compare-and-swap takes the slot exactly if it still has the prior holder and is still stale |
| SessionLock.Session.TryClaim | daiv/sessions/locks.py:49-87 | undisturbed, a claim succeeds exactly on a free slot or one whose timestamp is strictly older than thirty minutes |
| SessionLock.Session.Heartbeat | daiv/sessions/locks.py:90-100 | the timestamp moves exactly if the caller holds the slot, and it is told so |
| SessionLock.Session.Release | daiv/sessions/locks.py:102-107 | whoever holds the slot frees it and stamps the time, anybody else changes nothing |
| SessionLock.ReleaseThenClaim | daiv/sessions/locks.py:57-107 | right after the holder's release anybody's claim succeeds, however recent the last heartbeat |
| SessionLock.AcquireSessionLock | daiv/jobs/tasks.py:21-45 | behind a crashed holder, with delays before each look at the deadline and before each claim reads the clock, the wait succeeds exactly if a poll before the deadline finds the slot free or stale, and takes it at the first such poll |
| SessionLock.WaitOutlivesHolder | daiv/jobs/tasks.py:24-33 | a wait whose first look is in time and that began later than the last heartbeat by more than one poll interval and the longest pause takes over; one that began the longest gap between look and claim before the heartbeat, or earlier, never does |
| SessionLock.PromptWaitIsExact | daiv/jobs/tasks.py:24-33 | with no delays the takeover succeeds exactly if the wait began more than one poll interval after the last heartbeat |
| SessionLock.HeldUpPollTakesOver | daiv/jobs/tasks.py:39-44 | a last claim held up beyond the poll interval lets a wait that began exactly at the last heartbeat take over |
| SessionLock.NextRow | daiv/sessions/locks.py:49-107 | what each query of the protocol does to holder and timestamp |
| SessionLock.NextPhase | daiv/sessions/locks.py:49-107 | how far each query leaves whoever makes it: executing from the claim to the release, or free to begin again |
| SessionLock.RunKeeps | daiv/sessions/locks.py:49-107 | in every reachable state the row's timestamp is at most the write delay older than the holder's last landed claim or heartbeat |
| SessionLock.HeldUntilRelease | daiv/sessions/locks.py:12-18 | for any interleaving of the single queries, no other claim succeeds before a prompt holder releases, given h + d within thirty minutes |
| SessionLock.OneHolder | daiv/sessions/locks.py:30-46 | while every holder beats in time, at most one executes |
| SessionLock.SupersededIsInert | daiv/sessions/locks.py:90-107 | a superseded holder never gets the slot back and its late heartbeats and release leave the row unchanged |
| SessionLock.LateRun | daiv/sessions/locks.py:18-27 | beyond the bound a concrete run of single queries exists in which a prompt holder that beats within h loses the slot |
| SessionLock.StaleWindowIsExact | daiv/sessions/locks.py:18-27 | every prompt holder keeps its slot in every run if and only if h + d is at most thirty minutes |
| RunQueue.Session.EnqueueQueuedRun | daiv/sessions/signals.py:232-278 | the row is linked, failed or left ready, and the answer is true, false or an exception, by what broke |
| RunQueue.Session.DispatchNext | daiv/sessions/signals.py:174-229 | the loop terminates after at most three claims, takes queued rows oldest first, stops at the first release, and gives up only after three refusals |
| RunQueue.Session.Submit | daiv/sessions/services.py:294-354 | the handler takes the step of the queue whose outcome SubmitMeans and SubmitDispatches state, and an insert that fails creates nothing |
| RunQueue.Session.Sync | daiv/sessions/models.py:383-400 | the first arrival at a terminal status dispatches, a clash with the constraint changes nothing |
| RunQueue.Session.ReleaseOrphan | daiv/sessions/management/commands/release_orphan_queued_sessions.py:22-57 | one oldest queued run is released exactly if the session has one and nothing active |
| RunQueue.SubmitMeans | daiv/sessions/services.py:294-354 | a stored run is there afterwards; it is queued exactly if it is tracked and a tracked run is ready or running, and then nothing else changes; else it is ready and linked, failed, or ready without a task, by what broke |
| RunQueue.SubmitDispatches | daiv/sessions/services.py:199-224 | a run that was refused dispatches |
| RunQueue.SyncMeans | daiv/sessions/models.py:383-400 | the run gets the status reported unless a second tracked run would become active; others change only on the first arrival at a final status, and only queued ones |
| RunQueue.SyncDispatches | daiv/sessions/signals.py:109-171 | the first arrival at a final status dispatches |
| RunQueue.OrphanMeans | daiv/sessions/management/commands/release_orphan_queued_sessions.py:22-57 | the command tries the oldest queued run of a session with nothing ready or running, and that one only |
| RunQueue.DispatchMeans | daiv/sessions/signals.py:174-229 | a dispatch changes only the queued runs it claims, oldest first and only while no tracked run is active; each is linked, failed or left ready; it ends when nothing is queued, a run is active or released, a save raised, or three were refused |
| RunQueue.DispatchOutcome | daiv/sessions/signals.py:164-229 | at most one claimed run is not failed, and queued runs are stranded exactly when the dispatcher gave up with all three saved as failed |
| RunQueue.StepKeeps | daiv/sessions/signals.py:109-229 | submit, sync, dispatch and release each keep that nobody is stranded |
| RunQueue.NoLostWakeup | daiv/sessions/services.py:199-224 | in every reachable state a queued run has an active API or MCP run to wait for, unless the last dispatch gave up |
| RunQueue.NeverOvertaken | daiv/sessions/signals.py:199-205 | once a younger queued run has left the queue every older one has |
| RunInterleaving.NextIsTidy | daiv/sessions/signals.py:198-278 | every single statement keeps that a run being enqueued belongs to one worker and has not reached the broker, and that a queued one belongs to none |
| RunInterleaving.EnqueuedOnce | daiv/sessions/signals.py:204-217 | under any interleaving of submitters, dispatchers and the release command the broker accepts a run at most once |
| RunInterleaving.NeverRequeued | daiv/sessions/services.py:294-326 | a run that is not queued never is again |
| RunInterleaving.NeverTwoActive | daiv/sessions/models.py:305-318 | a session never has two active API or MCP runs |
| RunInterleaving.UndisturbedDispatch | daiv/sessions/signals.py:174-278 | a dispatcher's single statements with nobody between them amount to the dispatch of RunQueue, for any fates of the runs |
| RunInterleaving.UndisturbedSubmit | daiv/sessions/services.py:294-354 | a submitter's single statements, with the dispatch that follows a refusal, amount to the submit of RunQueue |
| RunInterleaving.UndisturbedRelease | daiv/sessions/management/commands/release_orphan_queued_sessions.py:37-57 | the command's single statements amount to the release of RunQueue |
| RunInterleaving.LinkedIsWithBroker | daiv/sessions/signals.py:232-278 | in every reachable state a run linked to a task is one the broker accepted |
| RunInterleaving.NextKeepsFacts | daiv/sessions/services.py:294-354 | no statement changes the session, the kind or the age of a run |
| RunInterleaving.SyncRow | daiv/sessions/models.py:383-400 | a sync gives the row the status reported unless a second tracked run of its session would be active, and moves nobody |
| RunInterleaving.DispatchIsBounded | daiv/sessions/signals.py:198-229 | under any interference a dispatcher takes at most five statements for each existing run before it is idle again, although lost claims do not count as failures |
| RunInterleaving.NeverStuck | daiv/sessions/signals.py:198-229 | a worker that is not idle always has a next statement |
| BatchRollup.Notifications.Notify | daiv/notifications/models.py:54-65 | an insert under a key that exists adds no row |
| BatchRollup.Notifications.DeliverToRecipients | daiv/notifications/run_notifiers.py:178-209 | the loop tries every recipient in order under one key, and a recipient whose insert fails does not keep the others from theirs |
| BatchRollup.Notifications.HandleBatchCompletion | daiv/notifications/run_notifiers.py:212-263 | rows are inserted exactly if every sibling is classified, one is notable and the run is unmuted |
| BatchRollup.Notifications.EmitRunNotification | daiv/notifications/run_notifiers.py:266-317 | a batch of several emits the roll-up or nothing, a single run its own notification if worthy, nothing outside the window |
| BatchRollup.Notifications.RedriveMissing | daiv/notifications/tasks.py:138-176 | the sweep re-emits run by run, inserts may fail, and it counts the runs after which no recipient is missing |
| BatchRollup.InsertedKeepsOne | daiv/notifications/models.py:56-64 | an insert keeps one row per key, loses none, and leaves the key present |
| BatchRollup.EmitMeans | daiv/notifications/run_notifiers.py:266-317 | an undisturbed emit adds a row for a recipient under a key if and only if the recipient is expected and its insert succeeds, the key is the batch or the single run, the run finished within 24 hours and is unmuted, every envelope of the batch is there and one of them, or that of the single run, is not all clear |
| BatchRollup.RedriveMeans | daiv/notifications/tasks.py:93-161 | the sweep emits again exactly for a recent unmuted run with something to say whose batch is complete and of whose recipients one has no row under its key |
| BatchRollup.NextMeans | daiv/sessions/tasks.py:75-98 | what each step does to siblings and clock, and that only an insert changes the rows |
| BatchRollup.AloneIsEmitted | daiv/notifications/run_notifiers.py:266-317 | the steps of one emit with nobody between them leave exactly the rows of the method |
| BatchRollup.NextLosesNothing | daiv/sessions/tasks.py:75-98 | after any single step whoever lacks the roll-up of a complete batch still has an emit under way, unless one was lost |
| BatchRollup.RollUpExactlyOnce | daiv/notifications/run_notifiers.py:212-284 | for every interleaving, once all siblings are classified and no emit is under way each recipient has exactly one roll-up row if some sibling is notable, none otherwise |
| BatchRollup.MutedIsSilent | daiv/notifications/run_notifiers.py:229-230 | with every run muted nobody gets a roll-up |
| BatchRollup.LateIsSilent | daiv/notifications/policy.py:31-42 | with every emit outside the relevance window nobody gets any row |
| BatchRollup.SweepRepairs | daiv/notifications/tasks.py:93-103 | after a crash the sweep finds a complete batch that lacks a row as long as a notable run is unmuted and recent, and nothing counts as lost any more |
| BatchRollup.DeliveredForGood | daiv/notifications/tasks.py:147-161 | a delivered roll-up stays the only one through any emits and re-drives |
| BatchRollup.SweepIsIdle | daiv/notifications/policy.py:45-55 | once everybody has the roll-up the sweep leaves the batch alone, since it looks under the emit's own key |
| BatchRollup.SweepOnce | daiv/notifications/tasks.py:138-176 | one sweep completes a batch at most once; then every expected recipient has exactly one row, and in any case everyone whose insert did not fail has if a candidate qualified |
| ChatTurns.BuildTurns | daiv/chat/turns.py:24-65 | the single indexed pass returns the transcript found by search: each call shows the last text sent for its id while it is the latest call with it |
| ChatTurns.BuildAssistantTurn | daiv/chat/turns.py:157-209 | reasoning, text and calls appear in content order, calls no block showed once at the end |
| ChatTurns.IndexPoints | daiv/chat/turns.py:74-78 | every index entry leads to a tool call with that id, so no lookup fails |
| ChatTurns.TurnsAfterSent | daiv/chat/turns.py:68-90 | a tool result or folded skill body changes exactly the latest call with its id |
| ChatTurns.NothingSent | daiv/chat/turns.py:68-72 | a message that reaches no call changes no earlier turn |
| ChatTurns.FoldStep | daiv/chat/turns.py:45-49 | a skill's body goes into the call that awaits it and makes no turn |
| ChatTurns.ToolStep | daiv/chat/turns.py:61-63 | a tool message awaits a skill body exactly if its id is known and was ever a skill call |
| ChatTurns.EveryCallIsShown | daiv/chat/turns.py:196-204 | no tool call with an id is dropped, whatever the content blocks |
| ChatTurns.BlockIsShown | daiv/chat/turns.py:157-201 | reasoning first, then each block in order: its text, its thought, or the call with its normalized name and arguments, blocks with nothing to show left out, and after them only calls of the message |
| ChatTurns.PlainIsShown | daiv/chat/turns.py:202-207 | of a plain message the text is shown unless it is blank, then every call in order |
| ChatTurns.PersonIsShown | daiv/chat/turns.py:137-145 | a person's message is a turn with its text unless it is a skill's body |
| ChatTurns.UserTextMeans | daiv/chat/turns.py:137-145 | a person's text is the text blocks run together |
| ChatTurns.ToolTextMeans | daiv/chat/turns.py:74-79 | a tool's text has one line for each block |
| ChatTurns.AwaitedMeans | daiv/chat/turns.py:42-63 | a skill's body is awaited exactly after a tool result, ignored messages aside, for a call to the skill tool before it |
| ChatTurns.AppendingOnlyAddsResults | daiv/chat/turns.py:24-65 | appending messages changes no role, id, order or text already shown |
| AccessSync.AccessMirror.Sync | daiv/codebase/tasks.py:79-209 | a cycle in place leaves the described rows, and is recorded clean exactly if nothing failed |
| AccessSync.CleanMeans | daiv/codebase/tasks.py:110-209 | a cycle is clean exactly if the catalog was saved, every member listing was stored, or empty where no row was, and the listing of repositories was not empty while rows were there |
| AccessSync.NextVisit | daiv/codebase/tasks.py:131-164 | the next visit replaces its repository's rows by the members listed if it stores them, and leaves all others |
| AccessSync.CycleMeans | daiv/codebase/tasks.py:166-201 | a cycle keeps the rows of the repositories it listed, unless it listed none, that are within the limit |
| AccessSync.AssertCanRun | daiv/codebase/authorization.py:137-156 | refused are, in order, for a linked user the repositories without a write row synced within the limit, for an admin none, for the unlinked all |
| AccessSync.RunsIffListed | daiv/codebase/authorization.py:137-156 | at any time a linked user may run exactly on the repositories whose deciding listing gives write access and is within the limit |
| AccessSync.MirrorIsDeciding | daiv/codebase/tasks.py:127-200 | over every history each row comes from its repository's deciding listing, and a recent one has all its members' rows |
| AccessSync.TableIsDeciding | daiv/codebase/tasks.py:127-196 | the same for the table between two visits of a running cycle and after its unlisted repositories are dropped |
| AccessSync.DecidingMeans | daiv/codebase/tasks.py:131-185 | the deciding listing is the last one stored, if no later cycle listed repositories without this one; there is none exactly if such a cycle followed every one stored |
| AccessSync.GrantedIffListed | daiv/codebase/authorization.py:108-129 | at any time, also while a cycle is running, a level is granted if and only if the last successful non-empty listing, not overruled by a later listing without the repository, grants it and is within the limit; that listing gives nobody two levels |
| AccessSync.ViewableIffListed | daiv/codebase/authorization.py:159-167 | at any time a repository is viewable exactly for those the deciding listing names, also under a level the enum does not know |
| AccessSync.OneSyncedAt | daiv/codebase/tasks.py:145-156 | all rows of a repository share one synced_at, also while a cycle is running |
| AccessSync.PruningIsInvisible | daiv/codebase/tasks.py:197-201 | deleting rows past the limit changes no decision then or later, in or between cycles |
| AccessSync.FailuresStayLocal | daiv/codebase/tasks.py:158-164 | histories that differ only in one repository's answers give every other repository the same rows |
| EgressEditor.InitialEgress | daiv/sandbox_envs/forms.py:121-155 | the loop shows every rule in order |
| EgressEditor.ShownMeans | daiv/sandbox_envs/forms.py:121-155 | a rule is shown with its host, methods, credential name and header, whether a value is stored, and never the value |
| EgressEditor.ValuesAreHidden | daiv/sandbox_envs/forms.py:121-155 | what is shown does not depend on any credential value |
| EgressEditor.CleanEgress | daiv/sandbox_envs/forms.py:224-267 | every host is normalised, or the fault of the first bad one is reported |
| EgressEditor.BuildEgress | daiv/sandbox_envs/forms.py:317-344 | rules in order and one secret per credential name, the last one winning |
| EgressEditor.PreserveUnchanged | daiv/sandbox_envs/forms.py:346-371 | a value left empty or as ****** becomes the stored one if there is one, any other stays as typed, and unreadable secrets refuse the save |
| EgressEditor.Save | daiv/sandbox_envs/forms.py:269-315 | cleaning, building, restoring and the model's check combined, with their errors in the form's order |
| EgressEditor.SaveMeans | daiv/sandbox_envs/forms.py:224-371 | each submitted host becomes its rule, and the last credential of a name is stored with the typed value, or with the stored one if left empty or as ****** |
| EgressEditor.MethodsMean | daiv/sandbox_envs/forms.py:247-250 | methods that are not blank are kept in order, stripped and in capitals, and none means all |
| EgressEditor.UpperMeans | daiv/sandbox_envs/forms.py:249 | the ASCII letters a to z become capitals and nothing else changes |
| EgressEditor.FirstFault | daiv/sandbox_envs/forms.py:243-260 | the first blank host, bad header name or broken value is what is reported |
| EgressEditor.FitIsSaved | daiv/sandbox_envs/forms.py:269-315 | hosts without a fault are refused only if nothing would be permitted, the credentials cannot be read or the model refuses; with the network off policy and credentials go |
| EgressEditor.SavedIsWithinLimits | daiv/sandbox_envs/models.py:306-354 | what is stored has at most a hundred rules and credentials, no line breaks, and every credential a rule names |
| EgressEditor.FormOutputIsNormal | daiv/sandbox_envs/forms.py:317-371 | whatever is submitted over whatever was stored, what the form stores is in normal form |
| EgressEditor.UntouchedRoundTrip | daiv/sandbox_envs/forms.py:121-371 | saving the editor as shown gives back what was stored if and only if that is normal and passes the model's check |
| EgressEditor.UntouchedSaveChanges | daiv/sandbox_envs/forms.py:339-344 | a stored state the model accepts and an untouched save changes: credentialed interception becomes all, and a credential no rule uses is dropped |
| EgressEditor.StoredByTheFormSurvives | daiv/sandbox_envs/forms.py:121-371 | every state the form stored survives an untouched edit, secrets included |
| EgressEditor.BrowserSubstitutes | daiv/sandbox_envs/static/sandbox_envs/js/egress-editor.js:36-103 | the outcome of an untouched save through the browser for every state in normal form: hosts trimmed by the script and stripped by the form, rules whose host is all trimmed away dropped with credentials no other rule names, every method list the read-only one or all methods, nothing else changed; refused exactly if a sent host strips to nothing or nothing is permitted any more |
| EgressEditor.ReadOnlyMeans | daiv/sandbox_envs/static/sandbox_envs/js/egress-editor.js:21-26 | a list is sent as read-only exactly if its methods, blank ones aside, are the three in any order and case |
| EgressEditor.TrimMeans | daiv/sandbox_envs/static/sandbox_envs/js/egress-editor.js:88-96 | the script's trim takes its own white space from both ends and nothing else |
| EgressEditor.BrowserRoundTrip | daiv/sandbox_envs/static/sandbox_envs/js/egress-editor.js:23-103 | through the browser the round trip holds if and only if in addition every method list is one the script knows and every host equals its trimmed form |
| EgressEditor.BrowserWidensMethods | daiv/sandbox_envs/static/sandbox_envs/js/egress-editor.js:36-103 | a host submitted with POST alone is stored so, and after an untouched save through the browser it allows every method |
| EgressEditor.BrowserTrimsHosts | daiv/sandbox_envs/static/sandbox_envs/js/egress-editor.js:88-96 | a host submitted with U+FEFF before it is stored so, and an untouched save through the browser removes it |
| EgressEditor.BrowserRefusesStored | daiv/sandbox_envs/static/sandbox_envs/js/egress-editor.js:88-96 | a host of U+FEFF alone is stored as submitted, and the untouched save through the browser sends no host and is refused |
| SandboxStore.Environments.ValidateRepoIds | daiv/sandbox_envs/models.py:266-304 | the list is accepted exactly if every id is well formed, unrepeated and unclaimed in its scope, and a refusal names a culprit |
| SandboxStore.AcceptableMeans | daiv/sandbox_envs/models.py:266-304 | accepted are lists of well formed ids, none given twice once stripped and none claimed by another environment of the scope and owner |
| SandboxStore.RepoIdIsPath | daiv/sandbox_envs/models.py:20 | an id is well formed exactly if it is two or more parts joined by slashes, none empty and none with a slash or white space |
| SandboxStore.Environments.Save | daiv/sandbox_envs/models.py:219-230 | a validated save writes the cleaned row and keeps the default flag, or changes nothing |
| SandboxStore.SaveMeans | daiv/sandbox_envs/models.py:219-304 | an accepted save stores scope, name, image and repositories as given, stripped, keeps the default flag and touches no other row |
| SandboxStore.SaveableMeans | daiv/sandbox_envs/models.py:219-230 | what a save needs: a name and an image that are not blank, acceptable repositories, a free name, and a default that stays global |
| SandboxStore.Environments.PromoteAsDefault | daiv/sandbox_envs/models.py:356-381 | every other global default is demoted and this one promoted, or everything is rolled back |
| SandboxStore.PromoteMeans | daiv/sandbox_envs/models.py:356-381 | the promoted row is the one global default and only stripped, every other row changes its flag alone |
| SandboxStore.Environments.DeleteRow | daiv/sandbox_envs/models.py:212-217 | only a row that is not the default is deleted |
| SandboxStore.AppliedIsCoherent | daiv/sandbox_envs/models.py:266-381 | each change keeps claims disjoint, defaults global and unique, and a default once there |
| SandboxStore.ReachableIsCoherent | daiv/sandbox_envs/models.py:126-148 | in every reachable store claims are disjoint per scope and owner and at most one row is default |
| SandboxStore.ExactlyOneDefault | daiv/sandbox_envs/models.py:203-217 | once a global default exists there is always exactly one |
| SandboxStore.OneAnswer | daiv/sandbox_envs/services.py:334-347 | in a coherent store the documented chain has one answer |
| SandboxStore.ResolveEnvForRun | daiv/sandbox_envs/services.py:334-354 | the code, which skips the default in the second step, answers as the documented chain, in whatever order rows are read |
| SandboxStore.ResolveRepoEnvs | daiv/sandbox_envs/services.py:240-276 | the batch gives every repository the chain's answer, or the explicit environment |
| SandboxStore.BatchAgrees | daiv/sandbox_envs/services.py:240-250 | in every reachable store batch and single resolution agree, whatever order either read |
| McpSelection.DedupedPoolRows | daiv/mcp_servers/services.py:45-81 | the forward pass drops exactly the personal rows shadowed by some global row |
| McpSelection.PoolNamesAreUnique | daiv/mcp_servers/services.py:48-52 | names in the pool are unique |
| McpSelection.PoolMeans | daiv/mcp_servers/services.py:45-81 | the pool is what is not disabled and global or the user's own, but no personal server whose name a global one that is not disabled has |
| McpSelection.DiffSelection | daiv/mcp_servers/selection.py:72-82 | the pass stores on for checked optional servers and off for unchecked defaults, nothing else |
| McpSelection.DiffMeans | daiv/mcp_servers/selection.py:72-82 | on where an optional server is checked, off where a default one is not, nothing else |
| McpSelection.EffectiveSelection | daiv/mcp_servers/selection.py:85-109 | the overrides give the same selection in whatever order they are read |
| McpSelection.EffectiveMeans | daiv/mcp_servers/selection.py:85-109 | a server of the pool is used if the overrides say on, or if they do not say off and it is a default |
| McpSelection.DiffThenApply | daiv/mcp_servers/selection.py:72-109 | applying the diff of a selection gives the selection restricted to the pool, for any pool |
| McpSelection.SelectionStaysInPool | daiv/mcp_servers/selection.py:88-90 | a selection stays inside the pool even if it changed since, and unknown names and texts count for nothing |
| McpSelection.DiffIsLeastIffConsistent | daiv/mcp_servers/selection.py:72-82 | the diff is contained in all overrides of its effect if and only if no name is both default and optional |
| McpSelection.PoolIsConsistent | daiv/mcp_servers/services.py:84-104 | that holds for pools built from the table, and each selected name is exactly one of their servers |
| Pagination.ListScheduledJobs | daiv/schedules/services.py:63-107 | both paths return the matching rows up to the limit, the loop looking at the limit only after a match |
| Pagination.LoopIsTakeUnlessZero | daiv/schedules/services.py:100-107 | for each listing the early-stopping loop is filter-then-take if and only if the limit is not 0 or nothing matches, and at limit 0 it returns the first match |
| Pagination.CapLimit | daiv/mcp_server/server.py:470-473 | the limit lands in 1 to 50 and a limit in that range is kept |
| Pagination.ListScheduledJobsPage | daiv/mcp_server/server.py:912-931 | both paths of the schedule listing give the page the common description gives |
| Pagination.PageSplitsRest | daiv/mcp_server/server.py:564-581 | a page holds the first rows of what is left and its cursor leaves exactly the others |
| Pagination.WalkIsEverything | daiv/mcp_server/server.py:685-697 | following next_cursor ends and returns every matching row exactly once in order, whatever limits are asked |
| Pagination.WalkMeans | daiv/mcp_server/server.py:685-697 | a walk returns the rows that pass repository, status and enabled filters, newest first or by scope and name, ties by id |
| Pagination.NeverRepeats | daiv/sessions/services.py:400-417 | however the table changes between pages, the rows returned are in listing order and no key comes twice |
| Pagination.NeverSkips | daiv/sandbox_envs/services.py:311-331 | a key that every table holds with a row matching the filter is returned with a matching row or still lies beyond the cursor, whatever else about its row changes |
| Pagination.CompleteWalkReturnsIt | daiv/mcp_server/server.py:912-931 | once the last page came, every such key was returned, and no key twice |
| Pagination.NoRowTwice | daiv/sessions/services.py:400-417 | no row comes twice as long as no row's key changes, as those of runs and schedules never do |
| Pagination.RenamedComesTwice | daiv/sandbox_envs/services.py:311-331 | an environment renamed between two pages can come twice |

## Left out

- The language model, prompts, transcript extraction and the agent graph: their outputs are arbitrary inputs.
- Django's ORM, the task broker, Redis and the git platforms: rows are maps, unique constraints guarded inserts,
  enqueue and save may fail.
- `source_run` of an entry, `updated_at` and `last_consolidated_at` of the document, and log lines.
- `backfill_memory_entries`: histories start from an empty repository and consist of extractions and rounds.
- `_heartbeat_loop`: heartbeats arrive at any time in the protocol; how far apart they land is a hypothesis.
- Holder ids shared by runs without a run id: every claim that succeeds has an id of its own here.
- AcquireSessionLock: nobody else acts on the slot during the wait; the interleaved protocol has no such limit.
- Runs created with a status given by webhooks or chat, and the reaper of chat runs: they are outside the
  one-active-run constraint.
- The race in which the active run ends between a submit's refused READY insert and its QUEUED insert: Submit is one
  step in `RunQueue`; `RunInterleaving` has the race, and its results do not depend on it.
- RunQueue.Session.DispatchNext: database reads that raise end a dispatch in the source; here only inserts, enqueues
  and saves fail.
- Delivery channels, retries and rendering of notification texts: a notification is its row.
- Subscribers that change while a batch runs: a batch has one set of recipients.
- `REDRIVE_BATCH_LIMIT` and the order of the sweep's candidates: a sweep takes any list of candidates.
- The repository catalogue's contents, `search_viewable_repositories` and the backstop probe: only whether the
  catalogue writes failed enters the status.
- An access cycle killed half-way, or whose own deletions raise: a history is whole cycles and the running one.
- Upper-casing beyond ASCII letters, and JSON that does not have the editor's types: EgressEditor works on ASCII
  methods and typed editor states.
- Encryption and the cap on the encrypted size: secrets are a map or unreadable.
- `env_vars`, memory and CPU fields of an environment: their checks are one boolean input of Save.
- A promotion between the delete view's check and its delete: each change of the store is one step.
- Cursor encoding and invalid cursors: a cursor is a key.
- Database collation: scope and name of an environment stand for their ranks in it.
- `merge_sandbox_runtime`, the refresh of the platform's egress rule, `parse_server_names` and
  `clear_irrelevant_frequency_fields`: field-by-field choices that would only add easy members.
- Header resolution and tool filters of MCP servers: the runtime set is the selection.
