# dsh core protocols in Dafny

A Dafny 4.11 model of the stateful core of dsh, a terminal coding agent, with proofs of
what its state machines promise. Every file is one component; the value-level functions
say what an operation does, classes and methods with loops have the source's own form and
are proved against those functions, and the theorems are lemmas about whole runs.

| files | component |
|---|---|
| GoalFacts, GoalHistory, GoalRuntime, GoalRuns | the two-phase durable Goal: replay of logged changes, what any accepted log says, preparation and installation, and the simulation between log and runtime over every disciplined run |
| GoalLaws, ReplayLaws | what each operation writes and when it is refused, and exactly which events replay accepts |
| ByteText, TextEncoding, InstructionRender, InstructionTold, InstructionSync, InstructionLaws | workspace instructions: escaping, framing and truncation and what they mean for UTF-8 text, the budgeted renderer with its binary search, its text byte for byte, the diff-and-converge protocol, and what its single records say |
| JobNotice, JobNoticeRuns, JobNoticeLedger | the background-job inbox: locked sections, the wake-up protocol with one waiter and a stored permit, and the ledger of every notice |
| Json, JsonCharge, JsonEquality | admission of untrusted JSON with an explicit stack, the bytes its charge covers, JavaScript equality, number normalisation |
| ResidentCharge, ResidentCredit, ResidentCreditRuns | mask arithmetic of allocation charges, pools, leases and charged buffers, and conservation over every interleaving |
| ImageCache, ImageWindow, ImagePreload, ImageResume | the refreshing image cache against the request window, and what survives a resume |
| CompactionRules, Compaction, CompactionLaws, CompactionSummary | the compaction pass against a session, a provider and barriers that may answer anything: its obstacles in order, the pass as it runs, when it makes progress and what its outcomes mean, and the collector of the summary stream |
| SessionTitle, TitleLaws | automatic and manual titles over runs with reopenings, from a pending prompt to the provider's title, and what a refresh does |
| Screen, Transcript, ScreenText, TerminalLaws | the terminal of the snapshot renderer, its transcript parser, its refinement to wrapped text, and what each control sequence does to the grid |
| RecordReader | newline-framed records over arbitrary chunks |
| RetryKey, RetryDecision, Sorting | the identity of a retry policy and the delays it grants |
| SkillNames, SkillDiscovery, SkillCatalog | skill names and descriptions, discovery, and the catalogue fixpoint |
| Wrappers, Text | options and results, machine widths, Unicode classes |

`dafny verify dfyconfig.toml` checks the whole project.

What is outside the program is a parameter: file contents and listings, digests, clocks,
fresh ids, the answers of the session log, the provider and the flush barrier, UTF-8
decoding and width tables, integer parsing, the strict JSON parser, number rendering,
and the wording of every prompt. Strings are Unicode scalar values, or bytes where the
source counts bytes; 32- and 64-bit widths, saturation and checked arithmetic are explicit.

## What the proofs show about the code

Each of these is a property one might expect, a run or input of the code for which it
fails, and the condition under which it holds, proved in both directions.

- A Goal's clear is prepared at the raw clock while updates clamp it, so a clear prepared
  after the clock stepped back is one that replay rejects (GoalRuns.ClearReplaysIff,
  BackwardClockBreaksOnlyClear).
- A direct human claim observed outside a turn can re-enable automatic work without
  telling the waiter (JobNoticeRuns.ObserveIsSafeIff, ObserveOutsideTurnLosesWake).
- A restored batch does not count against the 64-notice limit of the queue, so turns that
  fail one after another make it grow without bound (JobNoticeLedger.QueueBoundIff,
  QueueGrowsWithoutBound).
- While any candidate file is unavailable, a workspace whose visible baseline is outdated
  is never brought up to date (InstructionSync.BaselineSettlesIff, HomelessNeverSettles).
  The record of an unavailable file is otherwise left alone, but a directory named
  `user-global` shares the global file's scope (InstructionSync.UnavailableKeptIff,
  SharedScopeTouchesUnavailable).
- The image cache is keyed by content but resolved by the whole reference, so one content
  used under two names resolves only for the newest name (ImageWindow.ResolvesIff,
  RenamedImageDoesNotResolve).
- Resuming loads images in order of first use while eviction follows last use. A window
  holding an image twice can then lose it to three later images although requests still
  need it (ImageResume.ResumeCoversIff, DisagreeingOrdersLose, RepeatDisagrees).
- Whether a stream of valid records is read to the end depends on where its chunks are
  cut: a chunk that finishes one record and starts the next counts in full against the
  limit (RecordReader.ReadsAllIff, ChunkingDecidesErrors).
- A combining mark after a glyph in the last column joins the cell before it
  (Screen.MarkJoinsGlyphIff, MarkAfterFullLine).
- Every model step calls the title refinement, and the call takes the phase before it
  looks at it: a second step drops a title request that is running or has finished
  (SessionTitle.RunningTitleRecordedIff, SecondStartLosesTitle), and a first step without
  a prompt disarms the session (SessionTitle.FallbackRecordedIff,
  PromptAfterStartGetsNoTitle).
- With exactly 256 usable skill files, an ignored directory item makes discovery fail or
  succeed depending on where the listing puts it (SkillDiscovery.DiscoveryCompletesIff,
  ListingOrderDecides).

## Model

| member | source | states |
|---|---|---|
| GoalFacts.ReplayState.ApplyGoalChange | src/goal.rs:249-261 | replaying one logged change either rejects it and leaves the replayed state alone, or moves it exactly as the specification of creates, updates and clears says |
| GoalFacts.ReplayState.ApplyGoalMessage | src/goal.rs:262-303 | a round message is accepted only as the next round of the current Active Goal, and then counts it |
| GoalFacts.ReplayAppend | src/goal.rs:243-262 | replaying a longer log is replaying its events after the shorter one, so replay can follow a run event by event |
| GoalHistory.AcceptedStep | src/goal.rs:249-392 | one accepted event: identities only grow, only a creation changes identity and never to a used one, revision and rounds advance by exactly one, the update time never falls |
| GoalHistory.RevisionAndRoundsCount | src/goal.rs:262-378 | in any accepted log the Goal's revision is one more than its changes since creation and its rounds are its round messages, up to the counter's width and within the cap |
| GoalHistory.IdsNeverReused | src/goal.rs:304-324 | no identity is created twice in an accepted log, cleared or not, and the used ids are exactly those created |
| GoalRuntime.Runtime.Create | src/goal.rs:720-775 | the prepared creation, or its exact error, and the pending token it leaves; the visible Goal does not change |
| GoalRuntime.Runtime.UpdateExact | src/goal.rs:785-878 | edit, pause, resume, complete and block leave exactly the prepared change or the exact error of the specified update, whose fields and refusals GoalLaws states |
| GoalRuntime.Runtime.Clear | src/goal.rs:879-898 | the prepared clear at the raw clock, or its error |
| GoalRuntime.Runtime.NextRound | src/goal.rs:899-931 | hands out the next round of an armed Active Goal below its cap, otherwise disarms or answers nothing |
| GoalRuntime.Runtime.RollbackUncommittedRound | src/goal.rs:932-945 | takes back exactly the round last handed out at that revision, and nothing else |
| GoalRuntime.PreparedMutation.Commit | src/goal.rs:1046-1097 | installs the prepared state only while its token is the pending one |
| GoalRuntime.PreparedMutation.Drop | src/goal.rs:1098-1109 | an unsettled mutation gives up its pending slot and changes nothing visible |
| GoalRuns.StepKeepsInv | src/goal.rs:631-945 | every disciplined step (prepare, append, commit, drop, round, rollback, restart) keeps log and runtime in step |
| GoalRuns.ReplaySimulatesRuntime | src/goal.rs:249-392 | for every run, replay accepts the whole log, and whenever nothing is in flight its current Goal and used ids equal the runtime's |
| GoalRuns.InstallCatchesUp | src/goal.rs:1070-1097 | after the event is logged, installing cannot fail and makes the runtime equal to replay |
| GoalRuns.RestartChangesOnlyArmed | src/goal.rs:637-647 | rebuilding a quiet runtime from the log changes the armed flag and the token counter, nothing else |
| GoalRuns.ReachableStatesAreSafe | src/goal.rs:785-944 | in every reachable state at most one unsettled mutation exists and it is the pending one, armed implies an Active Goal, and rounds started stay within the cap |
| GoalRuns.TokensNeverRepeat | src/goal.rs:1111-1134 | over every run without a restart the tokens of the prepared mutations strictly increase, so no two are equal |
| GoalRuns.UndoRestores | src/goal.rs:932-945 | a round handed out and rolled back, or a mutation prepared and dropped, leaves the Goal as it was |
| GoalRuns.CapCannotFallBelowRounds | src/goal.rs:785-878 | an edit that would put the cap below the rounds started is refused |
| GoalRuns.UpdateReplays | src/goal.rs:325-378 | whatever an update prepares, replay accepts, whether or not the clock stepped back |
| GoalRuns.ClearReplaysIff | src/goal.rs:879-898 | replay accepts a prepared clear if and only if the clock has not fallen behind the Goal's last update |
| GoalRuns.BackwardClockBreaksOnlyClear | src/goal.rs:879-898 | after every creation that is accepted, logged and installed, a clear prepared at an earlier clock succeeds and replay refuses the log with it |
| GoalRuns.SomeCreationIsAccepted | src/goal.rs:720-775 | such a creation exists, so the failing run does |
| GoalLaws.UpdateWrites | src/goal.rs:776-878 | every prepared update, without naming the transition: the trimmed objective and cap when given, otherwise the old ones; the phase, block reason, armed flag and logged operation of its kind; identity, rounds and creation time kept, the revision one more, the clock never back |
| GoalLaws.UpdateAcceptedIff | src/goal.rs:776-878 | for a Goal that replay could have produced, an update succeeds if and only if the request is well formed, nothing is pending, it names the current Goal and revision, its phase allows it, and the result can be stored |
| GoalLaws.UpdateRefusals | src/goal.rs:776-878 | which guard answers when several stand in the way |
| GoalLaws.BadRequests | src/goal.rs:776-815 | a malformed request is refused for its first fault, whatever the Goal |
| GoalLaws.CreationWrites | src/goal.rs:720-775 | a creation writes the trimmed objective, the cap given or 32, revision one and no rounds, active and armed |
| GoalLaws.CreationAcceptedIff | src/goal.rs:720-775 | a creation succeeds if and only if its objective and cap are valid, nothing is pending or unfinished, and the clock and a new identity are there |
| GoalLaws.ClearWrites | src/goal.rs:879-898 | a clear names the current Goal at its next revision and leaves nothing armed |
| GoalLaws.ClearAcceptedIff | src/goal.rs:879-898 | for a Goal that replay could have produced, exactly when a clear is prepared and which error it answers otherwise |
| GoalLaws.OnlyOwnerSettles | src/goal.rs:1046-1109 | a commit or drop with another token changes nothing; the owner publishes its whole state or gives back the token alone |
| GoalLaws.RoundStartsIff | src/goal.rs:899-931 | a round is handed out if and only if the Goal is armed and active with a round left and nothing is pending: its next number, with only the count moved |
| GoalLaws.OnlyOwnRoundRollsBack | src/goal.rs:932-945 | a rollback moves only the count, and only for its own number at the Goal's own revision |
| ReplayLaws.UpdateReplayedIff | src/goal.rs:325-392 | replay accepts an update if and only if it changes only what its operation names, from a permitted phase, by one revision, with a clock that does not fall and well-formed texts |
| ReplayLaws.CreationReplayedIff | src/goal.rs:304-324 | replay accepts a creation if and only if no Goal is unfinished and it starts an unused identity from the beginning |
| ReplayLaws.ClearReplayedIff | src/goal.rs:379-392 | replay accepts a clear if and only if it names the current Goal's next revision and the clock does not fall |
| ReplayLaws.RoundReplayedIff | src/goal.rs:262-303 | replay accepts a round message if and only if it is the next round of the active Goal it names, within the cap |
| ReplayLaws.OnlyWellFormedEvents | src/goal.rs:160-248 | an event with another kind or version, or with a field missing or too many, is refused |
| ReplayLaws.ReasonReplayedIff | src/goal.rs:68-80 | a block reason is valid exactly when its code is 1 to 128 lower-case letters, digits and hyphens and its message is not blank and at most 4 KiB |
| ByteText.TruncateUtf8 | src/workspace_instructions.rs:983-993 | the longest prefix within the limit that ends on a character boundary |
| ByteText.ReplaceMonotone | src/workspace_instructions.rs:979-982 | escaping a longer text never yields a shorter one |
| ByteText.ReplaceRemoves | src/workspace_instructions.rs:979-982 | no closing tag survives escaping |
| ByteText.FrameClosedOnce | src/workspace_instructions.rs:901-924 | whatever the body holds, the frame is closed once, at its very end |
| TextEncoding.TruncationKeepsCharacters | src/workspace_instructions.rs:983-993 | truncating encoded text keeps the longest run of whole characters that fits |
| TextEncoding.BoundaryCutsText | src/workspace_instructions.rs:983-993 | at every character boundary encoded text is the encoding of a prefix of the text |
| TextEncoding.CharactersEndAtBoundaries | src/workspace_instructions.rs:983-993 | every prefix of the text ends at a character boundary |
| TextEncoding.ReplaceGoesOn | src/workspace_instructions.rs:979-982 | escaping replaces the first occurrence and goes on after it, and changes nothing without one |
| InstructionRender.RenderFitsBudget | src/workspace_instructions.rs:789-900 | for all entries, budgets and wordings the rendered text is within the budget and represents a contiguous suffix |
| InstructionRender.RenderKeepsLongestSuffix | src/workspace_instructions.rs:800-820 | an uncut rendering represents a suffix of the entries, and no longer suffix would have fitted; InstructionTold states the text |
| InstructionRender.FirstFittingIsFirst | src/workspace_instructions.rs:807-820 | the dropped prefix is the shortest whose removal makes the rest fit |
| InstructionRender.CutTextGrows | src/workspace_instructions.rs:839-861 | a longer cut never renders shorter, although the marker and the escaping depend on it; fitting is downward closed |
| InstructionRender.LongestCutIsLongest | src/workspace_instructions.rs:835-889 | the cut is the longest character-boundary prefix that fits |
| InstructionRender.SearchCut | src/workspace_instructions.rs:835-861 | the binary search terminates with exactly the cut the exhaustive search finds |
| InstructionRender.RenderEntries | src/workspace_instructions.rs:789-900 | suffix dropping and binary search together compute the declarative rendering, whose text InstructionTold states byte for byte |
| InstructionTold.UncutRendering | src/workspace_instructions.rs:789-820 | the rendering of the longest fitting suffix, byte for byte from headings, paths and contents alone: the framed introduction, the list of omitted paths, then heading, path and content of each entry in order; a removal has no content |
| InstructionTold.ContentStands | src/workspace_instructions.rs:925-940 | in an uncut rendering the escaped path and content of every represented entry stand in the text, in entry order, and a removal's path alone |
| InstructionTold.CutRendering | src/workspace_instructions.rs:821-900 | when not even the last entry fits, it is cut to the longest prefix ending at a character boundary that fits, under the introduction or else the short one, with the note that says how much; when neither has room, a prefix of that note alone and nothing represented |
| InstructionTold.EmptyRendering | src/workspace_instructions.rs:789-800 | nothing to tell is the introduction alone, cut at a character boundary when it is too long |
| InstructionSync.Deduplicate | src/workspace_instructions.rs:306-401 | a file repeated along the directories becomes absent, and the remaining entries render in candidate order |
| InstructionSync.DeduplicatedIsWellFormed | src/workspace_instructions.rs:306-401 | loading candidates with distinct scopes gives reconcile the input it needs |
| InstructionSync.VisibleInstructionState | src/workspace_instructions.rs:623-652 | the visible state is the fold of every change record in order, with the identity of the newest baseline |
| InstructionSync.Reconcile | src/workspace_instructions.rs:505-622 | the answer of a call, exactly: a first baseline, nothing while a replacement is held back, a replacement with its removals in scope order before what it shows, or the represented differences |
| InstructionSync.OneAnswer | src/workspace_instructions.rs:505-622 | what the specification allows a call to answer is one answer, for records whose directories are paths |
| InstructionSync.RemovalsNotRepresented | src/workspace_instructions.rs:767-788 | exactly one removal for each live record the shown entries do not express, in the order of the scope keys |
| InstructionSync.FreshBaselineThenSilence | src/workspace_instructions.rs:512-534 | after a first baseline over an empty visible state the next call is silent |
| InstructionSync.RoundApproaches | src/workspace_instructions.rs:536-620 | every message leaves the baseline compatible and strictly shortens the distance: incompatible baseline, then scopes still differing |
| InstructionSync.Converges | src/workspace_instructions.rs:505-651 | over any unchanged workspace, from any visible state, alternating reconcile and fold is silent after at most one more round than there are observations |
| InstructionSync.SilentIffSettled | src/workspace_instructions.rs:567-620 | with a compatible baseline it is silent exactly when every record says what the workspace shows, or not even the last change fits the budget |
| InstructionSync.UnavailableUntouched | src/workspace_instructions.rs:505-651 | with one scope for each candidate, no round from any state changes the record of a file that cannot be read |
| InstructionSync.UnavailableKeptIff | src/workspace_instructions.rs:505-651 | the record of a file that cannot be read survives every round from every state if and only if no observation that could be made has its scope, where a removal notice has room |
| InstructionSync.BaselineSettlesIff | src/workspace_instructions.rs:505-543 | alternating to silence ends with a compatible baseline if and only if the start had one, or had another and every file can be read, or had none and the first one renders; otherwise not one message is produced |
| InstructionSync.RemovalsHaveRoom | src/workspace_instructions.rs:789-992 | a removal notice has room under every wording of at most 16 KiB and for at most 4096 candidates |
| InstructionSync.HomelessNeverSettles | src/workspace_instructions.rs:306-365 | without a home directory a file is always unavailable: no run from a state that shows another baseline produces a message |
| InstructionSync.SharedScopeTouchesUnavailable | src/workspace_instructions.rs:306-365 | no home directory, an empty root and a directory named user-global with any AGENTS.md that fits: the unavailable global file is recorded all the same |
| InstructionLaws.FirstOfAlikeIsKept | src/workspace_instructions.rs:371-395 | of the project files of one directory with the same trimmed content the first is kept and every later one becomes absent; nothing else is touched |
| InstructionLaws.NewestRecordCounts | src/workspace_instructions.rs:623-652 | the record of a scope is the newest change that names it, whatever came before |
| InstructionLaws.NothingSaid | src/workspace_instructions.rs:623-652 | a scope no message names has no record, and a baseline was seen exactly when some message is one |
| InstructionLaws.NewestBaselineCounts | src/workspace_instructions.rs:623-652 | the identity is that of the newest baseline |
| InstructionLaws.FirstBaselineIff | src/workspace_instructions.rs:505-534 | a first baseline is answered if and only if a file was loaded and its rendering is not empty; it records exactly the entries shown |
| InstructionLaws.BaselineRecords | src/workspace_instructions.rs:715-766 | a baseline carries one full record, with path and digest, for each entry it shows |
| InstructionLaws.ReplacementIff | src/workspace_instructions.rs:536-567 | an outdated baseline is replaced if and only if every file can be read; the replacement removes exactly the live records it does not show and records in full what it shows |
| InstructionLaws.ChangesSayNews | src/workspace_instructions.rs:567-620 | every record of a change message is new and true: a removal of a live record no longer shown, an update of a live one that differs, or a first record |
| InstructionLaws.SettledIff | src/workspace_instructions.rs:567-620 | nothing is asked of a file if and only if its live record has the path and digest shown, or nothing is shown and there is no live record or it cannot be read |
| JobNotice.Inbox.Enqueue | src/agent/job_notice.rs:146-162 | appends in order while fewer than 64 wait, otherwise counts one omitted; a notification is owed after the lock exactly when work can wake |
| JobNotice.Inbox.SuppressJob | src/agent/job_notice.rs:163-168 | removes every notice of a job and nothing else |
| JobNotice.Inbox.ClaimForActiveStep | src/agent/job_notice.rs:180-188 | hands out the queue in order with the omission notice |
| JobNotice.Inbox.ContinueAfterCompletedStep | src/agent/job_notice.rs:189-197 | either keeps the turn with work pending or marks the session idle, atomically |
| JobNotice.Inbox.FinishTurn | src/agent/job_notice.rs:198-207 | ends the turn and owes a notification exactly when work can wake it |
| JobNotice.Inbox.ClaimIdleWake | src/agent/job_notice.rs:219-228 | claims a wake only when one is possible, and spends one of the budget |
| JobNotice.Inbox.Restore | src/agent/job_notice.rs:237-257 | puts a batch back in front, returns the spent wake, and owes a notification when it can wake |
| JobNotice.Inbox.ObserveDirectHumanClaim | src/agent/job_notice.rs:175-179 | resets the wake budget and nothing else |
| JobNotice.Inbox.Close | src/agent/job_notice.rs:258-267 | closes the inbox, empties its queue and omitted count and ends its turn |
| JobNotice.ClaimThenRestore | src/agent/job_notice.rs:229-256 | a batch claimed and restored with nothing in between gives back the same queue and omitted count |
| JobNoticeRuns.NoLostWakeUp | src/agent/job_notice.rs:146-282 | in every interleaving, if an automatic turn may start and the waiter is blocked, a thread still owes the notification that frees it |
| JobNoticeRuns.QuietMeansNothingToDo | src/agent/job_notice.rs:208-218 | once all owed notifications are delivered a waiter that stays blocked has nothing to start |
| JobNoticeRuns.ClosedNeverWakes | src/agent/job_notice.rs:146-282 | after a close no run can start an automatic turn, although a late restore may refill the queue |
| JobNoticeRuns.CloseIsFinal | src/agent/job_notice.rs:258-267 | from any state a close forgets what was pending and ends the turn, and until a late restore nothing is queued again and only a direct turn begins |
| JobNoticeRuns.CompletedStepEndsTurnIff | src/agent/job_notice.rs:189-197 | a completed step ends the turn if and only if nothing is queued; then the session is idle and the next arrival owes a notification and can start a turn |
| JobNoticeRuns.ObserveIsSafeIff | src/agent/job_notice.rs:175-218 | over every interleaving with human claims at any time, no moment finds startable work and a waiter nobody will wake if and only if every claim is made in a turn, after closing, with nothing pending, with wakes left, or while the waiter is still looking or being notified |
| JobNoticeRuns.ObserveOutsideTurnLosesWake | src/agent/job_notice.rs:175-218 | a run from the start after which a claim outside a turn leaves startable work, a blocked waiter, no permit and nothing owed |
| JobNoticeLedger.NoticesAreConserved | src/agent/job_notice.rs:146-256 | on an open inbox every enqueued job is exactly one of pending, handed out, omitted or suppressed, first in first out |
| JobNoticeLedger.QueueBoundIff | src/agent/job_notice.rs:146-257 | over every run of an open inbox at most 64 notices are pending at every moment if and only if every restore finds room for its batch |
| JobNoticeLedger.QueueGrowsWithoutBound | src/agent/job_notice.rs:146-257 | runs of 64 arrivals, a restore and a claim: two leave 128 notices pending, and n leave 64 n |
| JobNoticeLedger.AutomaticTurnsAreBounded | src/agent/job_notice.rs:219-256 | between two human claims at most three automatic turns are claimed and not given back |
| Json.InspectJson | src/json_value.rs:488-572 | the explicit-stack traversal returns exactly the pre-order specification, which JsonCharge bounds by the bytes retained, and its stack never exceeds the depth limit plus one whatever the width |
| Json.AddNodeCharge | src/json_value.rs:528-558 | a node adds the saturated sum of its own charges, keys included |
| Json.AdmittedIff | src/json_value.rs:36-72 | admission succeeds exactly when node count, depth and every number are admissible in the recursive sense |
| Json.ReportedOffenceIsFirst | src/json_value.rs:510-545 | a rejection names the first offence in pre-order |
| Json.DropIteratively | src/json_value.rs:657-700 | tearing a value down consumes exactly its pre-order list of nodes, each once |
| Json.RoundedIsNearest | src/json_value.rs:468 | an integer is compared as the nearest double: a multiple of the spacing there, at most half a spacing away |
| Json.PreOrderMeasures | src/json_value.rs:488-572 | the pre-order list is within a depth exactly when the recursive height is, and its numbers are admissible exactly when the tree's are |
| Json.ObjectNodesCoverTree | src/json_value.rs:580-602 | the charged node count covers any B-tree whose non-root nodes hold at least five entries |
| JsonCharge.ChargeCoversValue | src/json_value.rs:528-602 | by recursion on the value, for every B-tree shape its objects can have: the charge is at least the bytes retained (capacity and header of each string and key, of each array's items and of each tree node) and at most the rounding and the spare nodes above them; only the word size saturates it |
| JsonEquality.EqualIffSameMeaning | src/json_value.rs:460-486 | equality is exactly sameness of the JavaScript value denoted, numbers as doubles, within the depth limit, from equal size and one-way key inclusion |
| JsonEquality.EqualIntegersAreSameIffAdmitted | src/json_value.rs:468 | admitted integers compare equal exactly when they are the same; 2^53 and 2^53 + 1, which are not admitted, compare equal |
| JsonEquality.AdmissibleIff | src/json_value.rs:519-532 | an integer is admitted up to 2^53 - 1 either way, a fraction always, negative zero and what is not finite never |
| JsonEquality.EqualityIsAnEquivalence | src/json_value.rs:456-486 | reflexive exactly within the depth limit (so on every admitted value), always symmetric and transitive |
| JsonEquality.KeySetsAgree | src/json_value.rs:476-483 | equal size and one-way key inclusion make the key sets equal |
| JsonEquality.NormalizeIsIdempotent | src/json_value.rs:629-655 | normalising twice is normalising once |
| JsonEquality.NormalNumberIsCanonical | src/json_value.rs:631-642 | admissible numbers have the same value exactly when they normalise to the same number |
| JsonEquality.NormalizeKeepsAdmission | src/json_value.rs:36-72 | normalising an admitted value yields an equal one with the same node count, depth and resident charge |
| ResidentCharge.MaskClearsRemainder | src/resident_credit.rs:379-384 | clearing low bits by mask subtracts the remainder |
| ResidentCharge.RoundUpIsLeast | src/resident_credit.rs:379-384 | for a power-of-two alignment the mask gives the least aligned value not below the argument, or reports overflow |
| ResidentCharge.ByteBufferChargeIsTight | src/resident_credit.rs:316-377 | a buffer's charge covers its bytes and header and wastes less than one alignment unit |
| ResidentCredit.Pool.TryAcquire | src/resident_credit.rs:103-123 | takes exactly the request when it fits the limit, otherwise changes nothing |
| ResidentCredit.Lease.SplitOff | src/resident_credit.rs:146-157 | divides a lease without changing the pool, or refuses without changing it |
| ResidentCredit.Lease.Merge | src/resident_credit.rs:160-175 | adds a lease of the same pool; a refused merge returns the other lease to its own pool |
| ResidentCredit.Lease.Drop | src/resident_credit.rs:177-182 | returns exactly the lease |
| ResidentCredit.TryWithCapacity | src/resident_credit.rs:207-240 | succeeds exactly when the requested charge fits at first and the charge of the real capacity at last, and then holds that charge; which error every failure gives, and that it holds nothing |
| ResidentCredit.ChargedBytes.ExtendInPlace | src/resident_credit.rs:261-267 | appends only inside the charged allocation, so the charge stays exact |
| ResidentCredit.ChargedBytes.PushInPlace | src/resident_credit.rs:277-283 | pushes only inside the charged allocation |
| ResidentCredit.ChargedBytes.Truncate | src/resident_credit.rs:273-275 | shortens the content and keeps the charge |
| ResidentCredit.ChargedBytes.IntoParts | src/resident_credit.rs:288-291 | hands over the bytes and the unchanged charge |
| ResidentCreditRuns.StepConserves | src/resident_credit.rs:103-182 | every atomic step, compare-and-swap retries included, keeps each counter equal to its live leases and within its limit |
| ResidentCreditRuns.CreditIsConserved | src/resident_credit.rs:103-182 | after any interleaving from fresh pools each counter is the sum of its live leases within the limit, and zero once all are gone |
| ResidentCreditRuns.OnlyOwnersMoveCredit | src/resident_credit.rs:103-182 | an acquisition takes exactly its request, a drop or refused merge returns exactly the lease, and nothing else moves credit |
| ResidentCreditRuns.SamePoolNeverOverflows | src/resident_credit.rs:160-175 | merging two live leases of one pool cannot overflow |
| ResidentCreditRuns.UncontendedAcquireSucceeds | src/resident_credit.rs:103-123 | undisturbed, an acquisition that fits succeeds at its first exchange and one that does not changes nothing |
| ImageCache.Cache.Insert | src/attachment.rs:245-272 | refreshes and evicts to the longest fitting suffix; on overflow the prior copy is already gone; cached bytes stay the exact sum within both limits |
| ImageCache.Cache.EvictToFit | src/attachment.rs:265-270 | popping the front ends at the longest fitting suffix |
| ImageCache.Cache.Resolve | src/attachment.rs:208-219 | answers the bytes of the entry with the whole reference, or not found |
| ImageCache.RetainedRequestImages | src/attachment.rs:341-361 | exactly the longest suffix that meets both limits by the saturating running total; with sizes summing to a machine word, the longest that meets them |
| ImageCache.RetainsLongestFittingIff | src/attachment.rs:341-361 | the saturating total keeps the longest fitting suffix if and only if what it keeps fits, and never keeps fewer |
| ImageCache.InsertCommutesWithSuffix | src/attachment.rs:245-272 | evicting before an insertion never changes what survives it |
| ImageCache.CacheIsLatestSuffix | src/attachment.rs:245-272 | for any history with one content an identity the cache is the longest fitting suffix of the distinct images by last insertion |
| ImageWindow.WindowIsRetained | src/attachment.rs:341-361 | the retained references are those of the longest fitting suffix of the history |
| ImageWindow.WindowIsCached | src/attachment.rs:245-272 | every image of the request window is still cached |
| ImageWindow.ResolvesIff | src/attachment.rs:208-219 | an image of the window resolves, to its own bytes, if and only if the newest use of its content carries the same whole reference |
| ImageWindow.RenamedImageDoesNotResolve | src/attachment.rs:208-219 | one content used under two names: the older use is in the window and does not resolve |
| ImagePreload.Preload | src/attachment.rs:221-241 | resuming loads the first use of every identity of the window, or fails exactly when one of those cannot be read |
| ImageResume.WindowOfWindow | src/attachment.rs:341-361 | the window after more images depends on the past only through the window |
| ImageResume.AgreeingOrdersCover | src/attachment.rs:221-272 | when first-use and last-use order agree, a resumed cache covers every later window |
| ImageResume.DisagreeingOrdersLose | src/attachment.rs:221-272 | when they disagree, at most three new images of any lengths that have room lose an image that the window still needs |
| ImageResume.RoomAfterTwo | src/attachment.rs:341-361 | three new images have room whenever they fit beside the window without its first two |
| ImageResume.RepeatDisagrees | src/attachment.rs:221-272 | one image, another and the first again: the smallest window whose two orders disagree |
| ImageResume.ProbesDecide | src/attachment.rs:221-272 | any three new images with room decide whether the orders agree |
| ImageResume.ResumeCoversIff | src/attachment.rs:221-272 | a resumed cache covers every window of every later sequence of images if and only if first use and last use order the loaded window alike |
| CompactionRules.PressureIsFourFifths | src/agent/compaction.rs:125-136 | pressure is four fifths of the window wherever the products fit the word, and never below the retained target |
| Compaction.CompactOnce | src/agent/compaction.rs:138-659 | whatever session, provider and barrier answer: the log, the claim, the answer and the driver's counters are exactly those of the first obstacle in the order of the code |
| CompactionLaws.ProgressIff | src/agent/compaction.rs:138-659 | a pass makes progress if and only if no check, answer or barrier stands in the way and the checkpoint is cheaper; then the log gains start, summary, replacement and end |
| CompactionLaws.OutcomeIff | src/agent/compaction.rs:138-659 | when the appends and ends do not fail, every outcome is given exactly for its reason: cancelled, late, over budget, out of tokens, observer lost or provider failed if and only if that came first |
| CompactionLaws.EndsOnlyReport | src/agent/compaction.rs:604-738 | for any answers: the events before the end, the one end the code prefers with its failure, and the outcome unless the end or its barrier fails |
| CompactionLaws.ErrorIff | src/agent/compaction.rs:285-330 | an error before the end if and only if the claim, an append or the release failed fatally or the barrier broke, and which |
| CompactionLaws.BooksAre | src/agent/compaction.rs:138-160 | an attempt is counted exactly when one is tried, and never the last; the reported output exactly when a started stream failed or its summary was committed, saturating |
| CompactionLaws.LostIff | src/agent/compaction.rs:335-345 | the driver learns of a lost observer exactly at a gone barrier |
| Compaction.RequestSummary | src/agent/compaction.rs:335-447 | after the start is logged every exit ends the pass as the first obstacle says |
| Compaction.ReplaceIfCheaper | src/agent/compaction.rs:539-659 | the surface is replaced if and only if the checkpoint is cheaper, and the bracket is then closed as specified |
| Compaction.LogSummary | src/agent/compaction.rs:448-518 | the summary is logged once, and every refusal ends the pass as its obstacle says |
| Compaction.FinishBracket | src/agent/compaction.rs:604-659 | the end written after a replacement, its fallback to the protected one, and the answer behind the barrier |
| Compaction.CloseFailedBracket | src/agent/compaction.rs:684-738 | the one failing end, preferred or protected, and the outcome unless the observer is lost |
| Compaction.Driver.RecordSummaryUsage | src/agent/compaction.rs:661-682 | saturating count and the token-budget failure |
| CompactionLaws.BracketCounts | src/agent/compaction.rs:138-659 | a pass opens at most one bracket, closes it when it returns normally, and replaces at most once, for fewer tokens |
| CompactionLaws.SessionStaysBalanced | src/agent/compaction.rs:138-659 | over any session of passes, every bracket but the one an error interrupted is closed and every replacement shrinks the estimated surface |
| CompactionSummary.CollectSummary | src/agent/compaction.rs:786-953 | success exactly for an admissible, complete stream that stopped, whose started blocks all ended as text or reasoning with some text not blank; the output is their final contents in starting order; otherwise the first inadmissible item, or the finish, decides the outcome; the usage is the last one reported before |
| CompactionSummary.FitsIff | src/agent/compaction.rs:840-900 | a chunk is admissible exactly when the validator takes it, its kind is known, the stream stays within 10 MiB, and a block ends only after it started |
| CompactionSummary.NewestCounts | src/agent/compaction.rs:880-890 | the last usage report and the last finish count |
| CompactionSummary.OutputSpeaks | src/agent/compaction.rs:925-953 | an output has one text or reasoning block for each started one, and some text in it has a character that is not white space |
| CompactionSummary.TextBlocksExactly | src/agent/compaction.rs:938-943 | the summary keeps exactly the text blocks, in order |
| SessionTitle.Runtime.Record | src/agent/session_title.rs:89-121 | records the automatic fallback once, for the first human prompt |
| SessionTitle.Runtime.Start | src/agent/session_title.rs:123-205 | takes the phase whatever it was and starts a request only from a pending prompt |
| SessionTitle.Runtime.Collect | src/agent/session_title.rs:336-373 | records a finished title, or stops an unfinished request on shutdown |
| SessionTitle.Runtime.RenameTo | src/agent/session_title.rs:218-229 | ends automation, then records the user title |
| SessionTitle.Runtime.RefreshTitle | src/agent/session_title.rs:231-315 | every branch of a manual refresh and the log it leaves |
| SessionTitle.PhaseOnlyAdvances | src/agent/session_title.rs:42-53 | over every run of one runtime the phase only moves from armed through pending and running to done |
| SessionTitle.AutomationHappensOnce | src/agent/session_title.rs:68-373 | over any run, reopenings included, at most one automatic fallback, request and provider title, in that order |
| SessionTitle.RenameEndsAutomation | src/agent/session_title.rs:218-229 | after a recorded rename nothing automatic is ever recorded |
| SessionTitle.RefreshKeepsTitle | src/agent/session_title.rs:231-411 | a refresh that did not refresh keeps an existing title; one that did leaves the title it reports |
| SessionTitle.RunningTitleRecordedIff | src/agent/session_title.rs:123-373 | over every run from a running request its title is recorded if and only if the task finishes with it and a later step collects it before any start, rename, refresh, shutdown or reopening ended it |
| SessionTitle.SecondStartLosesTitle | src/agent/session_title.rs:123-133 | a title that was found and would have been collected is lost by a second start in between |
| SessionTitle.FallbackRecordedIff | src/agent/session_title.rs:89-133 | over every run of one runtime an armed session gets an automatic title if and only if an accepted step with a prompt and a fallback precedes every start, rename and refresh; the first such step names it |
| SessionTitle.PromptAfterStartGetsNoTitle | src/agent/session_title.rs:89-133 | a step without a prompt, then a good prompt: nothing is recorded, until the session is opened again |
| TitleLaws.RequestRecordedIff | src/agent/session_title.rs:123-205 | over every run from a pending prompt a provider is asked if and only if the first start, rename, refresh or reopening is a start with refinement on whose request is prepared and accepted |
| TitleLaws.ProviderTitleRecordedIff | src/agent/session_title.rs:123-373 | over every run from a pending prompt the provider's title is recorded if and only if that start also builds the request and the task finishes and is collected before a step ends it |
| TitleLaws.RefreshWrites | src/agent/session_title.rs:231-315 | a refresh writes the fallback, the request and the provider's title, each exactly when it gets that far |
| TitleLaws.RefreshOutcomeIff | src/agent/session_title.rs:231-411 | each outcome of a refresh if and only if its reason holds |
| Screen.Terminal.PutCharacter | scripts/render-terminal-snapshot.py:168-191 | writes, wraps, scrolls or joins a mark, keeping the grid rows by columns, the cursor inside and a pending wrap in the last column |
| Screen.Terminal.Tab | scripts/render-terminal-snapshot.py:125-128 | terminates at the next stop or the last column |
| Screen.Terminal.ScrollIfNeeded | scripts/render-terminal-snapshot.py:106-110 | drops the top row and adds a blank one exactly when the cursor is below the screen |
| Screen.Terminal.SelectGraphics | scripts/render-terminal-snapshot.py:145-166 | folds the parameters into a style the palettes can render, or rejects the first unsupported one |
| Screen.Terminal.Move | scripts/render-terminal-snapshot.py:138-143 | moves inside the screen or rejects without moving |
| Screen.SpacesStayOnRow | scripts/render-terminal-snapshot.py:125-128 | a tab never wraps, scrolls or touches another row |
| Screen.MarkJoinsGlyphIff | scripts/render-terminal-snapshot.py:168-191 | a combining mark put after a glyph, wrapped first or not, joins that glyph's cell exactly when it is narrow with room behind it, wide and at the edge, or in the only column |
| Screen.MarkAfterFullLine | scripts/render-terminal-snapshot.py:168-191 | after a glyph that fills the line the mark changes the cell before it instead |
| Transcript.RunCsi | scripts/render-terminal-snapshot.py:194-242 | one control sequence leaves the specified screen or rejection; TerminalLaws states what each sequence does |
| Transcript.ScanSequence | scripts/render-terminal-snapshot.py:274-282 | finds the final byte, or reports the length limit or truncation |
| Transcript.ParseTranscript | scripts/render-terminal-snapshot.py:245-298 | the loop computes the recursive interpretation, whose every intermediate state is valid; TerminalLaws and ScreenText state what it shows |
| ScreenText.PutGrows | scripts/render-terminal-snapshot.py:168-191 | writing a narrow character grows the laid-out text by it, wrapping only when there is more to write |
| ScreenText.TranscriptShowsLastRows | scripts/render-terminal-snapshot.py:245-298 | a transcript of narrow text and CR LF pairs is accepted and the grid is exactly the last rows of that text cut at the width |
| ScreenText.ExactFitTakesOneRow | scripts/render-terminal-snapshot.py:168-191 | a line that exactly fills the width takes one row |
| TerminalLaws.PositionMoves | scripts/render-terminal-snapshot.py:214-226 | a;b followed by H puts the cursor at row a and column b, counted from one and inside the screen, and changes no cell or style |
| TerminalLaws.PositionNeedsTwoParts | scripts/render-terminal-snapshot.py:214-226 | a position with another number of parts is refused |
| TerminalLaws.UpFive | scripts/render-terminal-snapshot.py:205-213 | 5A moves five rows up, stopping at the top, and nothing else |
| TerminalLaws.EraseBlanksRow | scripts/render-terminal-snapshot.py:227-235 | 2K blanks the current row and leaves the other rows, the cursor and the style |
| TerminalLaws.GraphicsIsLastOfGroup | scripts/render-terminal-snapshot.py:145-166 | of the style parameters the last of each group wins: 0 resets, 1 and 2 exclude each other, 7 reverses, 30 to 36 and 39 set and clear the foreground, 43 and 49 the background; the first unsupported one is refused |
| TerminalLaws.GraphicsRestyle | scripts/render-terminal-snapshot.py:145-166 | a styling sequence applies that to the bytes of its parameters and moves nothing |
| TerminalLaws.BadPartIsRefused | scripts/render-terminal-snapshot.py:228-241 | before a final m an empty part, and one that is no integer, is refused wherever it stands |
| TerminalLaws.NonAsciiIsRefused | scripts/render-terminal-snapshot.py:214-232 | a byte above ASCII before a final H or m is refused |
| TerminalLaws.OthersAreRefused | scripts/render-terminal-snapshot.py:236-242 | every other control sequence is refused |
| TerminalLaws.BrokenSequences | scripts/render-terminal-snapshot.py:274-298 | an escape that is no sequence, one that does not end and one that is too long are refused and told apart |
| TerminalLaws.LineFeedScrolls | scripts/render-terminal-snapshot.py:112-124 | a line feed goes down a row, scrolling the top row away at the bottom |
| TerminalLaws.TabWritesSpaces | scripts/render-terminal-snapshot.py:125-128 | a tab writes spaces to the next multiple of eight or the last column |
| TerminalLaws.PutWrites | scripts/render-terminal-snapshot.py:168-191 | a glyph is written in its own cells at the cursor, after the wrap that was pending or that it needs, and nothing else changes |
| TerminalLaws.MarkAppends | scripts/render-terminal-snapshot.py:168-191 | a combining mark is appended to the cell before the cursor |
| RecordReader.Reader.NextRecord | examples/plugin_support/mod.rs:189-227 | one call answers and advances exactly as specified, with pending bytes within the limit |
| RecordReader.BytesAreAccounted | examples/plugin_support/mod.rs:189-227 | what was read is the returned lines with their newlines and what is pending; lines and pending stay within the limit |
| RecordReader.RecordsAreLines | examples/plugin_support/mod.rs:189-227 | a stream read without error yields exactly its lines |
| RecordReader.ChunkingNeverChangesRecords | examples/plugin_support/mod.rs:189-227 | two chunkings that both run without error return the same records |
| RecordReader.ReadsAllIff | examples/plugin_support/mod.rs:189-227 | a chunking runs without error if and only if the stream ends with a newline, every line is good, and at each read the unfinished record and the whole chunk fit |
| RecordReader.ChunkingDecidesErrors | examples/plugin_support/mod.rs:189-227 | for every parser, every longest record it accepts and every record after it: one chunking of their lines returns both, and with one byte arriving a read earlier the same bytes fail |
| RecordReader.LongestRecordIsFramed | examples/plugin_support/mod.rs:189-227 | records of the greatest length exist |
| RecordReader.LineIsJudged | examples/plugin_support/mod.rs:190-207 | a whole buffered line is consumed and is a record exactly when it runs from brace to brace without a carriage return and parses; the error says which failed |
| RecordReader.NoLineYet | examples/plugin_support/mod.rs:208-227 | without a whole line: a full buffer, the end of the stream, a partial record or a chunk that does not fit, and otherwise reading on |
| RetryKey.QuoteIsPrefixFree | src/agent/retry.rs:92-94 | a quoted code ends itself, whatever commas, quotes and brackets it holds |
| RetryKey.Utf16Injective | src/agent/retry.rs:75-76 | comparing by UTF-16 code units distinguishes all codes |
| Sorting.SortIsCanonical | src/agent/retry.rs:75-76 | sorting forgets the order of the codes and nothing else |
| RetryKey.KeysEqualIff | src/agent/retry.rs:63-90 | two policies share a key exactly when mode, retry cap, code multiset and backoff agree, for any rendering that tells their numbers apart and writes no delimiter |
| RetryKey.FormatExists | src/agent/retry.rs:63-90 | every finite set of numbers has such a rendering |
| RetryDecision.DelaysAreBounded | src/agent/retry.rs:12-61 | a delay is between zero and the maximum, is granted only to an eligible failure, and the always mode never stops |
| RetryDecision.DelaysGrow | src/agent/retry.rs:54-59 | for one sample the delay never shrinks from one retry to the next |
| RetryDecision.JitterIsSymmetric | src/agent/retry.rs:54-59 | jitter keeps the delay within its ratio of the unjittered delay |
| RetryDecision.DelayDoubles | src/agent/retry.rs:53-54 | the unjittered delay is the initial one at first and doubles from each retry to the next up to the maximum, for at most 1024 doublings |
| RetryDecision.JitterSpansRange | src/agent/retry.rs:54-61 | the sample moves the delay over the whole jitter range of the unjittered one, in proportion, and never past the maximum |
| RetryDecision.DecisionIs | src/agent/retry.rs:12-52 | the normal mode stops past its cap, on a code it does not list and on a provider delay beyond the maximum; a provider delay within it is taken as it is, and everything else waits the local delay |
| SkillNames.CheckSkillName | src/skills.rs:582-599 | the scan decides the character-by-character rule |
| SkillNames.SkillNameIff | src/skills.rs:582-599 | exactly the hyphen-separated lower-case alphanumeric words of at most 128 bytes |
| SkillNames.NormalizeDescriptionIsIdempotent | src/skills.rs:601-613 | normalised descriptions are single-spaced, at most 500 characters, and normalise to themselves |
| SkillNames.NormalizeKeepsText | src/skills.rs:601-613 | the words of a description are kept in order with single spaces between them, and a long one keeps its first 497 characters |
| SkillDiscovery.DiscoverBlocking | src/skills.rs:179-246 | the nested loops compute the specified winners, or nothing |
| SkillDiscovery.DiscoveryKeepsFirsts | src/skills.rs:179-246 | completed discovery keeps, for each name, the first candidate in root then file-name order, and at most 64 names |
| SkillDiscovery.CompletesIff | src/skills.rs:230-241 | a pass over candidates completes exactly when none is unavailable and at most 64 names appear |
| SkillDiscovery.ReadsExactly | src/skills.rs:220-229 | wherever it stands in a listing a directory is read, a file exactly when its name ends in .md, and nothing else |
| SkillDiscovery.DiscoveryCompletesIff | src/skills.rs:179-246 | discovery completes if and only if every root is absent or its listing accepted, no candidate file is unavailable and at most 64 names appear |
| SkillDiscovery.CollectedIff | src/skills.rs:195-217 | a listing is refused exactly when an item is broken or anything, even an ignored item, follows the 256th usable name |
| SkillDiscovery.ListingOrderDecides | src/skills.rs:197-200 | 256 usable names and one ignored item are accepted or refused by where the listing puts the item |
| SkillDiscovery.ListingOrderIsIrrelevant | src/skills.rs:218-219 | once accepted, the order of the listing does not matter |
| SkillCatalog.SourceRoundTrip | src/skills.rs:623-677 | a catalogue message reads back as the entries it was built from |
| SkillCatalog.SilentOncePublished | src/skills.rs:99-121 | over an unchanged workspace one visible catalogue is enough: preparing again is silent |
| SkillCatalog.ToldIff | src/skills.rs:99-121 | a catalogue is told if and only if discovery completed, its entries are not those already seen, and they fit; it is an update exactly when one is visible |
| SkillCatalog.ListsInvocable | src/skills.rs:104-110 | the catalogue lists exactly the winners a model may call, in the order of their names |
| SkillCatalog.ReadsOnlyCatalogues | src/skills.rs:623-677 | only a message of the catalogue's own kind reads as one, and then with at most 64 valid names and bounded descriptions |

## Left out

- ImagePreload.Preload: declared sizes that sum beyond a machine word are left out, because there the saturated total may retain images that do not fit the cache together.
- InstructionSync.UnavailableKeptIff: takes it that a removal notice has room in the budget (InstructionSync.RemovalsHaveRoom says when); a wording for which none has could never tell of a removal.
- Normalising JSON numbers rewrites the tree in place; the model works on values and does not capture that no node is moved.
- The encoded length of a JSON value and its 8 MiB limit.
- The Goal command line, prompts, wrap-ups and summaries; locking is modelled as one operation at a time.
- Collecting image references out of message blocks; image decoding, digests, publication and the verification of stored objects beyond existence and length.
- Cancellation and I/O errors while preloading images, reading records and discovering skills.
- The charges of hash tables and shared pointers; memory orderings weaker than a single counter's own order.
- Compaction: building the dispatch, draft and checkpoint messages (each may fail, and that is all); an append that reports a non-fatal error is taken to have written nothing.
- Title text normalisation, the prompt given to the title provider and the assembly of its stream; timeouts are answers of the provider.
- Skill files: front matter, bounded reads, symbolic links, bodies and the `skill` tool; of the rendered catalogue only whether its text fits.
- Rounding of retry delays as doubles, and negative zero as a jitter ratio.
- SVG and PNG output of the snapshot renderer; what remains of a wide glyph after half of it is overwritten.
- The plug-in handshake around the record reader and the internals of its strict JSON parser.
- Lock poisoning, panics caught at provider boundaries, and allocation failure except where it must release credit.
