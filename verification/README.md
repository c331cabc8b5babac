# Verification of the archon core protocols

A Dafny model of the small protocols at the core of archon, with proofs about all their runs
and all their inputs. Each module follows one source file or one component.

| files | system part |
|---|---|
| `Shadow.dfy`, `ProfileStore.dfy`, `ProfileRuns.dfy`, `ProfileProvenance.dfy`, `ProfileMeaning.dfy`, `ProfileGates.dfy`, `ProfileOverlap.dfy`, `ProfileCommands.dfy` | the governed agent-profile store: proposals, approval, shadow evaluation, apply, rollback |
| `GuardianWire.dfy`, `Guardian.dfy` | the request line of the native observer, its delivery through a pipe, the selection of checks |
| `RpcCalls.dfy`, `RpcClients.dfy` | the two TypeScript clients: re-framing of a stream, correlation of responses with requests |
| `Fingerprint.dfy`, `SourceTree.dfy`, `RustLiteral.dfy` | the build fingerprint and the string-literal reader |
| `Migration.dfy` | the learning-store migration with interruption and resume |
| `Coalescer.dfy` | the event queue that merges deltas and sheds progress events |
| `VersionSpec.dfy`, `NameScan.dfy`, `HookMerge.dfy`, `AcpPump.dfy` | version specifiers, the scan for variable names, the hook merger, the editor session's event pump |
| `Wrappers.dfy`, `Octets.dfy`, `Text.dfy`, `Orders.dfy`, `KeyedSort.dfy` | options and results, bytes, splitting and filtering, orders, sorting and stable sorting by a key |

## How the models are built

**Profile store.** A command reads the store and then either fails or performs a list of
upserts. The database may refuse any of them, so a step is a command together with the number
of writes that are accepted. `ProfileStore.Exec` is that step as a function; the class
`ProfileCommands.LearningStore` is the code, one guarded write after another, and each of its
methods is proved to perform exactly the step. The theorems are about `ProfileStore.Run`, any
sequence of steps from any store that satisfies `ProfileRuns.Inv`. Drawn identifiers are
assumed new (`ProfileRuns.Admissible`). `ProfileMeaning` says over stores alone when a command
is allowed and what it leaves behind.

**Observer request.** The launcher writes a line in chunks under a window that finished chunks
and activity renew; the observer reads byte by byte under an idle window and a size limit.
`Guardian.Deliver` and `Guardian.ReadRequest` are the two loops; how they end is stated over
what the pipe and the clock do. `Guardian.Run` interleaves their two step functions arbitrarily
over one bounded pipe and one clock. JSON text is an
inverse pair of functions without raw newlines (`GuardianWire.Lawful`; section 7 of RFC 8259
has control characters escaped).

**Overlapping commands.** Runs are sequences of whole commands. `ProfileOverlap` is about the
store shared by several processes, where a command reads first and its writes come later one
by one between those of others.

**Clients.** `RpcCalls` is the table as values; the two classes are the clients, and their
methods are proved to perform its operations (section 5 of the JSON-RPC 2.0 Specification).

**Fingerprint.** A hasher is the stream of bytes it was fed; equality of streams stands for
equality of digests. SHA-256 itself is not part of this model.

**Coalescer.** Shedding is proved for an arbitrary classifier and then specialised to the
shipped one, which never yields progress.

**Scores** are real numbers.

## Where the code and its documentation disagree

The model follows the code in each case.

* docs/learning/governed-agent-evolution.md lets a sensitive content become active only if the
  latest shadow evaluation of its proposal promotes with zero regressions. Rollback does not
  consult the policy. `BarredOnlyByRollback` says that a step breaks the rule exactly when it
  is an activating rollback that reaches its insert and whose target's content is barred at
  that moment, be it one that was only staged before or one whose latest evaluation no longer
  promotes. `RuleKeptExactly` and `ActiveWasCleared` lift this to whole runs, and
  `RollbackBypassesShadow` is a concrete store. `StagedActivatesOnlyByRollback` and
  `ActiveWasVetted` are about a different question, which contents that were built without
  asking for activation become active.
* A version number is the largest one plus one in 64 bits. It exceeds all earlier numbers
  exactly while the range is not used up (`NextNumberExceedsAll`); an optimised build wraps.
* A proposal can be applied twice. After an apply that the policy allows, its version is
  stored and the same apply is allowed again exactly when the status write was the refused
  one (`RepeatsOnlyIfInterrupted`). Over runs there is one other cause, a status command that
  takes the applied proposal out of that state (`SecondApplyHasACause`,
  `ReapprovedIsAllowedAgain`).
* Two versions can each be promoted over the other. `PromotedBothWaysExactly` gives the exact
  condition on the rows; it takes a task with several rows on each side
  (`UniqueTasksAreSafe`, `RepeatedTaskPromotesItself`).
* A request whose send throws keeps its id in the table although its promise is rejected.
  Table and settled promises are disjoint exactly when every failed send was followed by a
  close or by a response with its id (`DisjointUnlessSendThrew`, `ThrownSendLingers`).
* The close event of a WebSocket that was already replaced rejects requests sent on the new
  one. A further connect is safe exactly when every earlier socket has closed
  (`ConnectIsSafeExactly`, `OrderlyClosesSettleOwn`).
* Dispatching a notification can throw: without parameters as soon as a handler is registered,
  and whenever a handler throws. The data handler of the stdio client has no `try`, so the rest
  of the chunk is lost (`ThrowLosesTheAnswer`). `ChunksDoNotMatter`, `EndedEffectsAreTheSame`,
  `FramedMessagesArrive` and `FramedMessagesArriveBeforeEnd` say exactly when the cutting into
  chunks does not matter and when every message arrives.
* Commands that overlap can leave two active versions of an agent and repeat numbers, exactly
  when an insert is overtaken (`OverlapKeepsExactly`, `TwoReadersTwoActive`).
* The listing order of directories is irrelevant to the source fingerprint exactly when no file
  is collected under two names and none is embedded under two (`ListingOrderIsIrrelevant`); a
  file that is embedded also with an inner dot in its path makes it matter (`DottedSpelling`).
* Two paths spelled by their components are hashed under one name exactly when splitting the
  components at backslashes gives the same pieces (`NamesTellPiecesApart`,
  `BackslashCollides`). The stream identifies the tree when names and paths correspond, and
  any two entries that break this break the theorem (`SourceStreamIdentifiesTree`,
  `SharedNameHidesTree`).
* plugins/merge-hooks.js says that an entry is skipped if one with the same command exists.
  It is skipped if all its commands exist, anywhere under the event, and one without a command
  is added each time (`SkippedExactly`, `SkippedThoughNoneIsTheSame`, `ReinstallIsAbsorbed`).
* src/command/acp.rs replaces the stored token as soon as a later prompt arrives, so a cancel
  may miss the turn in flight (`CancelHitsTheLastPrompt`, `CancelCanMiss`).
* `~=` lets pre-releases of the next prefix through, which 'Compatible release' of PEP 440
  excludes. `CompatibleExactly` and `ReadingsDifferExactly` give the exact conditions,
  `PreReleaseSlipsThrough` and `FiveComponentsDiffer` examples.
* After an interruption of the first of two sources, the rows are those of an uninterrupted
  run exactly when, for every key that was still to come and that both hold, both offer the
  same first row (`SwitchesSourceExactly`, `InterruptionCanSwitchSource`).
* With a classifier that does yield progress, shedding leaves two adjacent deltas of one kind
  exactly when two survivors lose everything between them (`PushKeepsApart`).

## Model

| member | source | states |
|---|---|---|
| ProfileRuns.RunKeeps | src/command/agent_evolve_apply.rs:12-109 | Every store reached by any sequence of commands, each cut short after any write, has at most one active version per agent, parents with smaller numbers, 64-bit numbers, sound evaluations, and all of the earlier history. |
| ProfileRuns.SafeAllKeeps | src/command/agent_evolve_apply.rs:30-48 | The invariant and the earlier history hold after every single write of a command, not only after its last. |
| ProfileRuns.HandoverIsSafe | src/command/agent_evolve_apply.rs:210-225 | Retiring the active version first and inserting the new one second never shows two active versions of an agent. |
| ProfileRuns.PlanIsSafe | src/command/agent_evolve_apply.rs:22-109 | The writes of every command keep the invariant one by one, whatever their proposal or target. |
| ProfileRuns.ExecKeeps | src/command/agent_evolve_apply.rs:12-109 | One command with any number of accepted writes keeps the invariant and extends the history. |
| ProfileRuns.HistoryIsAppendOnly | src/command/agent_evolve_apply.rs:22-31 | Between any two moments of a run no version, proposal or evaluation disappears, versions change only in their two flags, proposals only in their status, later versions have larger numbers, and events are only appended. |
| ProfileRuns.NextNumberExceedsAll | src/command/agent_evolve_apply.rs:111-120 | The number handed out exceeds all numbers of the agent if and only if the 64-bit range is not used up, and stays in that range. |
| ProfileRuns.OneActiveId | crates/archon-learning/src/agent_profile_versions.rs:188-202 | The active version read from a reachable store is the agent's only one; none is read only if there is none. |
| ProfileRuns.Lineage | src/command/agent_evolve_apply.rs:145-147 | Parent chains have strictly falling numbers and follow the recorded parents. |
| ProfileRuns.LineageIsAcyclic | src/command/agent_evolve_apply.rs:82-84 | No parent chain returns to a version, leaves its agent, or is longer than the store. |
| ProfileProvenance.ContentProvenance | src/command/agent_evolve_apply.rs:76-81 | Through any number of rollbacks, each version's content is one the run started with or one that a step of the run built by applying a proposal. |
| ProfileProvenance.ContentIsLegitimate | src/command/agent_evolve_apply_policy.rs:8-36 | Each content was there at the start or was built within the policy: proposal neither rejected nor applied, only the two append keys overridden, and for a sensitive proposal an approval at the start or by an earlier step of the run. |
| ProfileProvenance.ApprovalHasAStep | src/command/agent_evolve.rs:410-416 | A proposal is found approved in a run only if it was at the start or a step approved it and its write was accepted. |
| ProfileProvenance.ApplyWasAuthorised | src/command/agent_evolve_apply_policy.rs:8-72 | Consequence of the store invariant: an apply that goes ahead meets the approval rule and, when it activates a sensitive proposal, has a latest evaluation with gains, no losses and no lower average. |
| ProfileProvenance.StagedActivatesOnlyByRollback | src/command/agent_evolve_apply.rs:56-93 | A step makes a staged content active if and only if it is an activating rollback to one that reaches its insert. |
| ProfileProvenance.ActiveWasVetted | src/command/agent_evolve_apply_policy.rs:26-28 | In every run without a rollback that activates a staged content, an active content was there at the start or was built by an activating apply that the whole policy allowed at the moment of that apply. |
| ProfileGates.BarredOnlyByRollback | docs/learning/governed-agent-evolution.md:28-30 | A step activates a content of a sensitive proposal whose latest evaluation does not promote with zero regressions if and only if it is an activating rollback to such a content that reaches its insert. |
| ProfileGates.RuleKeptExactly | docs/learning/governed-agent-evolution.md:28-30 | A run keeps the documented rule at every activation if and only if none of its steps is such a rollback. |
| ProfileGates.ActiveWasCleared | src/command/agent_evolve_apply_policy.rs:44-72 | In a run without such a rollback, every active version was active at the start or met the rule at the very step that activated it. |
| ProfileGates.RepeatsOnlyIfInterrupted | src/command/agent_evolve_apply.rs:30-36 | After an apply that the policy allows, its version is stored and the same apply is allowed again if and only if the refused write is the one of the status. |
| ProfileGates.AppliedExactly | src/command/agent_evolve_apply.rs:32-36 | At any moment of a run a proposal is applied if and only if a step marked it, or it was applied at the start, and no accepted status command reopened it since. |
| ProfileGates.SecondApplyHasACause | src/command/agent_evolve_apply.rs:12-54 | Two allowed applies of one proposal, the first having left its version: the first's status write was refused, or an accepted status command between them took the proposal out of the applied state. |
| ProfileGates.AppliedStays | src/command/agent_evolve.rs:410-416 | A step leaves an applied proposal applied if and only if it is not an accepted status command that reopens it. |
| ProfileGates.ReapprovedIsAllowedAgain | src/command/agent_evolve.rs:410-416 | Approving an applied proposal once more allows another apply, with all versions still stored. |
| ProfileGates.ApplyMarks | src/command/agent_evolve_apply.rs:32-36 | However many writes are accepted, an apply changes exactly its own proposal, and only once the status write is accepted. |
| ProfileOverlap.OverlapKeepsExactly | src/command/agent_evolve_apply.rs:22-31 | When commands of several processes interleave, every write keeps the invariant and the append-only history if and only if no other command inserts a version of the agent between a command's reads and its insert. |
| ProfileOverlap.LandingKeepsExactly | src/command/agent_evolve_apply.rs:30-48 | One write of a command that read earlier keeps them if and only if it is not such an overtaken insert. |
| ProfileOverlap.NextStaysOk | src/command/agent_evolve_apply.rs:22-48 | What is known of every command on its way holds after each event that is no overtaken insert. |
| ProfileOverlap.TwoReadersTwoActive | src/command/agent_evolve_apply.rs:22-31 | Two activating applies that both read before either inserts leave two active versions of an agent. |
| ProfileProvenance.StagedThenRolledBack | src/command/agent_evolve_apply.rs:56-93 | From every store with an approved proposal, staging and rolling back to it activates its content and adds no evaluation. |
| ProfileProvenance.RollbackBypassesShadow | docs/learning/governed-agent-evolution.md:28-30 | A concrete store in which that happens to a high-risk proposal, against the documented rule. |
| ProfileProvenance.RollbackRestores | src/command/agent_evolve_apply.rs:74-91 | A completed activating rollback leaves its version as the only active one, with the target's content, and the replaced one marked as a rollback target. |
| ProfileProvenance.RollbackInserts | src/command/agent_evolve_apply.rs:74-91 | As soon as its insert is accepted, a rollback has put exactly the restored version, with the active version as parent, and changed no other version but the retired one. |
| ProfileProvenance.ApplyInserts | src/command/agent_evolve_apply.rs:22-31 | The same for an apply: the version built from the proposal, its parent, its flag, and nothing else. |
| ProfileProvenance.ApplyActivates | src/command/agent_evolve_apply.rs:30-31 | A completed apply makes its version the only active one if asked to, and otherwise leaves the active version alone. |
| ProfileProvenance.ApplyMarksProposal | src/command/agent_evolve_apply.rs:32-48 | A completed apply changes only its own proposal's status and records one event naming proposal and version. |
| ProfileCommands.LearningStore.ApplyProposal | src/command/agent_evolve_apply.rs:12-54 | The code performs exactly the modelled step, whose conditions, errors and result the `ProfileMeaning` rows state; it succeeds exactly when all writes are accepted and otherwise reports the policy's refusal or the failed write. |
| ProfileMeaning.ApplyAllowedExactly | src/command/agent_evolve_apply_policy.rs:8-72 | For every store, an apply is allowed if and only if the proposal exists, is neither rejected nor applied, is approved if its risk is high or critical or it touches permissions or provider identity, and, in that same case with activation, its latest evaluation promotes with zero regressions. |
| ProfileMeaning.ApplyRefusedBecause | src/command/agent_evolve_apply_policy.rs:13-72 | Each error of a refused apply is tied to its own reason, in the order in which they are looked at. |
| ProfileMeaning.AppliedContent | src/command/agent_evolve_apply.rs:122-152 | The version a completed apply builds records the proposal field by field, what was asked for, and the next number. |
| ProfileMeaning.OverridesExactly | src/command/agent_evolve_apply.rs:154-176 | Kind by kind, the key that is overridden and the text it gets; any other kind overrides nothing. |
| ProfileMeaning.NextNumberIsOneMore | src/command/agent_evolve_apply.rs:111-120 | While numbers are left, the number drawn is one more than that of some version of the agent, or 1 if it has none. |
| ProfileMeaning.RollbackAllowedExactly | src/command/agent_evolve_apply.rs:62-73 | A rollback is allowed if and only if its target exists and belongs to the named agent; nothing else is asked. |
| ProfileMeaning.RollbackRecords | src/command/agent_evolve_apply.rs:90-103 | A completed rollback changes no proposal, evaluation or ledger row, draws the next number and records one event naming target and version. |
| ProfileMeaning.StatusRecords | src/command/agent_evolve.rs:410-416 | A status command goes ahead if and only if the proposal exists, and completed it changes that status and nothing else. |
| ProfileMeaning.EvaluationAllowedExactly | src/command/agent_evolve_shadow.rs:17-19 | An evaluation goes ahead if and only if the proposal exists; nothing else is asked. |
| ProfileMeaning.EvaluationRecords | src/command/agent_evolve_shadow.rs:43-77 | A completed evaluation adds one record, with its two versions, both averages, the counts and the verdict, and changes nothing else. |
| ProfileMeaning.ShadowCompares | src/command/agent_evolve_shadow.rs:32-43 | The candidate is the newest version built from the proposal, or the proposed one; the baseline its parent, or the current one; compared are their rows in ledger order, or in place of missing baseline rows those of the evidence. |
| ProfileCommands.LearningStore.RollbackProfile | src/command/agent_evolve_apply.rs:56-109 | The same for rollback, with its two errors. |
| ProfileCommands.LearningStore.WriteApplied | src/command/agent_evolve_apply.rs:30-48 | The writes happen in order and stop at the first refused one. |
| ProfileCommands.LearningStore.WriteRolledBack | src/command/agent_evolve_apply.rs:90-103 | The writes of a rollback happen in order and stop at the first refused one. |
| ProfileCommands.LearningStore.MarkPreviousActive | src/command/agent_evolve_apply.rs:210-225 | The previous version is rewritten only when activation is asked for and there is one. |
| ProfileCommands.LearningStore.UpdateProposalStatus | crates/archon-learning/src/agent_evolution_proposals.rs:203-213 | Approve and reject are the modelled step on one proposal, or the missing-proposal error. |
| ProfileCommands.LearningStore.RunShadowEvaluation | src/command/agent_evolve_shadow.rs:11-93 | The evaluation recorded is the modelled one; `ShadowCompares` and `EvaluationRecords` say which rows it compares and what it holds. |
| ProfileStore.LatestEvaluation | crates/archon-learning/src/agent_shadow_evaluations.rs:167-183 | The evaluation consulted is one of the proposal's with the greatest time stamp, and none only if there is none. |
| ProfileStore.NewestFor | src/command/agent_evolve_shadow.rs:95-103 | The candidate is the version built from the proposal with the largest number, the last in key order among equals, and none only if there is none. |
| ProfileStore.ActiveOf | crates/archon-learning/src/agent_profile_versions.rs:188-202 | What is read as active is an active version of that agent, and none is read exactly when there is none. |
| ProfileStore.Overrides | src/command/agent_evolve_apply.rs:154-176 | Only the two append keys are overridden, each exactly for its kinds, and each text is the note of the kind followed by the trimmed diff. |
| Shadow.CompareTaskScores | src/command/agent_evolve_shadow.rs:157-194 | The loops give the modelled tally, which `TallyExactly` states in numbers. |
| Shadow.TallyExactly | src/command/agent_evolve_shadow.rs:157-203 | The tally is the number of candidate rows more than 0.05 below, and above, the first baseline row of their task; if both numbers are 0 and both sides have rows, it is (1, 0), (0, 1) or (0, 0) as the candidate average lies more than 0.05 below, above, or within 0.05 of the baseline average. |
| Shadow.RowScoreIs | src/command/agent_evolve_shadow.rs:138-155 | The score case by case: quality, else completion rate, else the status by its words; less 0.15 for a failed gate or test, or else 0.1 for a provider incident; between 0 and 1. |
| Shadow.SumConcat | src/command/agent_evolve_shadow.rs:134 | The sum under the average adds every score once. |
| Shadow.TallyScores | src/command/agent_evolve_shadow.rs:196-203 | At most one counter moves, and only beyond the tolerance. |
| Shadow.VerdictOf | src/command/agent_evolve_shadow.rs:205-225 | Promotion holds exactly with candidate rows, no regression, an improvement and no lower average; rejection exactly with a regression and a lower average; any other regression needs review. |
| Shadow.SwapSwapsTheCounts | src/command/agent_evolve_shadow.rs:157-194 | With unique task hashes on each side, exchanging the sides exchanges regressions and improvements. |
| Shadow.PromotedBothWaysExactly | src/command/agent_evolve_shadow.rs:157-225 | Two sets of rows are each promoted over the other if and only if both have rows, the averages are equal, no row falls beyond the tolerance below the other side's first row of its task, and on each side one rises above it. |
| Shadow.NeverPromotedBothWays | src/command/agent_evolve_shadow.rs:157-225 | It never happens if on one side the first row of each task leads. |
| Shadow.UniqueTasksAreSafe | src/command/agent_evolve_shadow.rs:167-172 | Nor if the task hashes of one side are unique. |
| Shadow.CompareRow | src/command/agent_evolve_shadow.rs:163-179 | One row moves a counter exactly if it loses or gains against the first baseline row of its task. |
| Shadow.RepeatedTaskPromotesItself | src/command/agent_evolve_shadow.rs:167-172 | A set of rows can be promoted over itself. |
| Shadow.AverageIsBetween | src/command/agent_evolve_shadow.rs:130-136 | The average lies between the lowest and highest row score and its clamp never acts. |
| Shadow.RowScore | src/command/agent_evolve_shadow.rs:138-155 | Every row scores between 0 and 1, and what it scores is its base less its penalty unless one of the bounds is reached. |
| GuardianWire.LineRoundTrip | src/command/acceptance_scratch_guardian.rs:205-237 | Parsing a written line gives back the request and the selection, absent and empty told apart, if and only if the request carries limits; otherwise the error names its pin. |
| GuardianWire.WrittenExactly | src/command/acceptance_scratch_guardian.rs:226-235 | The written object, field by field, with exactly those names. |
| GuardianWire.ParsedExactly | src/command/acceptance_scratch_guardian.rs:205-225 | Any JSON value parses to a request and a selection if and only if it has the request's fields with their types and values, limits with build jobs in 32 bits, no field besides, and the selection as a list of strings or not at all. |
| GuardianWire.RefusedExactly | src/command/acceptance_scratch_guardian.rs:211-224 | A selection that is no list of strings is the error if and only if there is one; missing limits are reported only with the pin of the value and when they are absent or null. |
| GuardianWire.RefsExactly | src/command/acceptance_scratch_guardian.rs:94-119 | Entry by entry: a command, a floor with its verifier, nothing for a floor without one; acceptance entries first. |
| GuardianWire.StringsExactly | src/command/acceptance_scratch_guardian.rs:38 | The order of the written ids: the first different character decides, and a proper prefix comes first. |
| GuardianWire.SelectionRoundTrip | src/command/acceptance_scratch_guardian.rs:212-216 | A selection written in order is read back as the same set. |
| GuardianWire.ListedInOrder | src/command/acceptance_scratch_guardian.rs:231-233 | What is written is sorted and holds each id of the set once. |
| GuardianWire.ListedIsTheOnly | src/command/acceptance_scratch_guardian.rs:38 | No other sorted list has the same ids, so the line does not depend on how the set was built. |
| GuardianWire.SelectionNarrows | src/command/acceptance_scratch_guardian.rs:81-121 | A selection is accepted exactly when all its ids are pinned, then yields the full reference list restricted to it in order, and otherwise names the least id that is not pinned. |
| GuardianWire.EmptySelectionRunsNothing | src/command/acceptance_scratch_guardian.rs:94-102 | An empty selection yields no reference at all. |
| Guardian.ReadRequest | src/command/acceptance_scratch_guardian.rs:243-290 | Over polls, reads and clock values alone: the loop ends with a line or an error if and only if some turn does so and all before it go on. A turn goes on when its check comes less than five seconds after the last byte read, or the start, and nothing is ready or a byte is read that is no newline and keeps the line below 4 MiB; every byte renews the window. |
| Guardian.ReaderEndsExactly | src/command/acceptance_scratch_guardian.rs:243-290 | The same of the reader's step function, which the interleaved system runs. |
| Guardian.Deliver | src/command/acceptance_scratch_guardian_launch.rs:67-75 | Over partial writes, breaks, activity and looks at the window alone: the delivery ends as delivered, broken or given up if and only if some turnout does so and all before it go on; a look gives up when a whole window has passed since the last activity or finished chunk of 8192 bytes. |
| Guardian.SenderEndsExactly | src/command/acceptance_scratch_guardian_launch.rs:67-75 | The same of the sender's step function, with the number of bytes taken. |
| Guardian.WindowsCountFrom | src/command/acceptance_scratch_guardian.rs:247-278 | In every interleaving the reader's window counts from the last step that took a byte from the pipe, and the sender's from the last activity or write that finished a chunk. |
| Guardian.WriteChunk | src/command/acceptance_scratch_guardian_launch.rs:70-71 | The write of one chunk uses up the turnouts in order and ends at a chunk boundary, in an error or with the input. |
| Guardian.Offer | crates/archon-shell/src/progress.rs:73-116 | One turnout is taken as the sender's step function says; only the end of a chunk or activity renews the window. |
| Guardian.RunKeepsInv | src/command/acceptance_scratch_guardian_launch.rs:67-86 | In every interleaving the pipe holds exactly what was sent and not read, and each end of the reader has its reason. |
| Guardian.AcceptedIsWhatWasSent | src/command/acceptance_scratch_guardian.rs:137-144 | Whatever the interleaving, an accepted line is the launcher's, read to its newline and not beyond, and parses to the same request and selection if and only if limits are carried. |
| Guardian.UndisturbedDelivers | src/command/acceptance_scratch_guardian.rs:137-144 | With no window used up and a line below the limit, neither side fails, and once all bytes are consumed the reader holds the request and selection. |
| Guardian.UndisturbedStaysHealthy | src/command/acceptance_scratch_guardian.rs:251-255 | No such run reaches a failure on either side. |
| Guardian.BoundedGapsDeliver | src/command/acceptance_scratch_guardian_launch.rs:62-86 | While nothing breaks and no gap on the clock reaches its window, both sides stay healthy, and by one window for each byte the line has been accepted and parsed to the same request and selection. |
| Guardian.LastByteBound | src/command/acceptance_scratch_guardian.rs:247-278 | In such a run the last step that took a byte from the pipe is no later than one window for each byte read. |
| Guardian.LimitIsExact | src/command/acceptance_scratch_guardian.rs:282-287 | Consequence of RunKeepsInv: a line of the limit's length is accepted in no run, a shorter one is refused for its length in none. |
| Guardian.FailuresHaveCauses | src/command/acceptance_scratch_guardian.rs:251-277 | Consequence of RunKeepsInv and WindowsCountFrom: a stall follows a whole window without a byte taken, giving up one without a finished chunk or activity, and an early end a pipe that closed before everything was sent. |
| Guardian.CanFinish | src/command/acceptance_scratch_guardian_launch.rs:67-75 | From every healthy moment within the idle window, writes and reads alone lead to the accepted line: there is no deadlock. |
| RpcCalls.RunKeepsInv | archon-sdk-ts/src/websocket.ts:147-190 | In every run the issued ids are exactly 1 up to the next one, each waiting or settled, and both only after a failed send. |
| RpcCalls.DisjointUnlessSendThrew | archon-sdk-ts/src/websocket.ts:155-168 | Waiting and settled ids are disjoint if and only if every failed send was followed by a close or by a response with the id it had drawn. |
| RpcCalls.ThrownSendLingers | archon-sdk-ts/src/stdio.ts:86-98 | A failed send leaves its id in both. |
| RpcCalls.SettledForGood | archon-sdk-ts/src/websocket.ts:157-166 | An outcome never changes, and ids are never reissued. |
| RpcCalls.SettledForAReason | archon-sdk-ts/src/websocket.ts:55-60 | Every outcome comes from the id's own response while it waited, a close while it waited, or its own failed send. |
| RpcCalls.ResponseTouchesOne | archon-sdk-ts/src/websocket.ts:183-191 | A response settles exactly the waiting request it names; an unknown or repeated one changes nothing. |
| RpcCalls.CloseSettlesAll | archon-sdk-ts/src/websocket.ts:55-60 | Right after a close nothing waits and every issued id is settled. |
| StdioClient.ChunksDoNotMatter | archon-sdk-ts/src/stdio.ts:52-60 | On a host that survives exceptions a cutting of the stream gives the state of the uncut stream, lines handled included, if and only if no chunk with a line that throws is followed by a chunk that completes a line; the buffer is always the same. |
| StdioClient.EndedEffectsAreTheSame | archon-sdk-ts/src/stdio.ts:52-60 | On a host that ends with the exception every cutting has the effects of the lines up to the first that throws. |
| StdioClient.SurvivorIs | archon-sdk-ts/src/stdio.ts:56-59 | On a surviving host exactly the lines of each chunk up to its first throw are handled. |
| StdioClient.BatchesJoin | archon-sdk-ts/src/stdio.ts:53-55 | The messages of the stream do not depend on its cutting, only their grouping does. |
| StdioClient.ThrowLosesTheAnswer | archon-sdk-ts/src/stdio.ts:131-137 | A delta without parameters, with a handler registered, takes the answer in its chunk with it, which is handled when it comes on its own. |
| StdioClient.FramedMessagesArrive | archon-sdk-ts/src/stdio.ts:52-60 | On a surviving host texts written as lines arrive in full, in order and once, if and only if no chunk goes on after a line that throws; an unfinished line waits. |
| StdioClient.FramedMessagesArriveBeforeEnd | archon-sdk-ts/src/stdio.ts:52-60 | On a host that ends with the exception, if and only if none but the last throws. |
| StdioClient.LinesOfTwo | archon-sdk-ts/src/stdio.ts:53-55 | The complete lines and the remainder of a longer text come from those of its first part. |
| StdioClient.ArchonStdioClient.OnData | archon-sdk-ts/src/stdio.ts:52-60 | The handler cuts the buffer first and handles the complete lines up to the first that throws. |
| StdioClient.ArchonStdioClient.HandleLines | archon-sdk-ts/src/stdio.ts:56-59 | The loop trims, skips blank lines and is left by an exception. |
| StdioClient.ArchonStdioClient.DispatchNotification | archon-sdk-ts/src/stdio.ts:131-149 | Handlers of the method are called in turn; absent parameters throw as soon as there is one to call, and a handler that throws ends the loop. |
| StdioClient.ArchonStdioClient.HandleLine | archon-sdk-ts/src/stdio.ts:102-121 | One line is handled as `NotifiedExactly` and `NotNotified` state, and throws exactly when its dispatch does. |
| StdioClient.NotifiedExactly | archon-sdk-ts/src/stdio.ts:131-149 | A notification of `archon/textDelta` or `archon/turnComplete` with parameters calls as many handlers as are registered for its method, or up to the first that throws; without parameters it calls none and throws if and only if one is registered; any other notification calls none and does not throw. |
| StdioClient.NotNotified | archon-sdk-ts/src/stdio.ts:102-117 | A response settles what it names and calls no handler; any other message does nothing. |
| StdioClient.LineExactly | archon-sdk-ts/src/stdio.ts:57-58 | A blank line is no message, any other is parsed without the spaces around it. |
| Text.TrimExactly | archon-sdk-ts/src/stdio.ts:57 | Trimming leaves the range between the spaces at both ends and takes nothing else off. |
| Text.SpacesExactly | archon-sdk-ts/src/stdio.ts:57 | The spaces, one by one. |
| StdioClient.ArchonStdioClient.MakeRequest | archon-sdk-ts/src/stdio.ts:80-100 | Without a process no id is drawn; otherwise a request draws the next id and waits, rejected at once if its send throws. |
| StdioClient.ArchonStdioClient.ResolveResponse | archon-sdk-ts/src/stdio.ts:123-129 | The named request leaves the table and is settled. |
| WebSocketClient.ArchonClient.MakeRequest | archon-sdk-ts/src/websocket.ts:147-170 | Without an open socket no id is drawn; otherwise the request operation is performed. |
| WebSocketClient.ArchonClient.HandleMessage | archon-sdk-ts/src/websocket.ts:172-222 | A message is handled as `NotifiedExactly` states. |
| WebSocketClient.NotifiedExactly | archon-sdk-ts/src/websocket.ts:172-222 | Six notifications by name are passed to their handlers, all others are ignored; a response settles what it names; sockets stay as they are. |
| WebSocketClient.ArchonClient.OnClose | archon-sdk-ts/src/websocket.ts:55-60 | Whichever socket the event comes from, the loop rejects every waiting promise once and clears the table. |
| WebSocketClient.ArchonClient.Connect | archon-sdk-ts/src/websocket.ts:48-53 | A new socket is held in place of the former one, which stays as it is. |
| WebSocketClient.ArchonClient.Disconnect | archon-sdk-ts/src/websocket.ts:142-145 | The socket that is held begins to close and is let go. |
| WebSocketClient.ConnectIsSafeExactly | archon-sdk-ts/src/websocket.ts:48-60 | In every reachable state, no close event of an earlier socket can reject a request sent on a newly connected one if and only if every earlier socket has closed. |
| WebSocketClient.OrderlyClosesSettleOwn | archon-sdk-ts/src/websocket.ts:48-60 | In every run that connects only then, a close event finds none but its own socket's requests waiting. |
| WebSocketClient.LinkKeepsInv | archon-sdk-ts/src/websocket.ts:48-191 | Connecting and disconnecting leave the properties of the table as they are. |
| Text.SplitMore | archon-sdk-ts/src/stdio.ts:53-55 | Splitting a longer text only continues the last piece. |
| Fingerprint.FrameIsPrefixFree | build_fingerprint.rs:157-160 | No framed string is the beginning of another framed string, for lengths below 2^64. |
| Fingerprint.StreamInjective | build_fingerprint.rs:157-160 | Equal framed streams come from the same sequence of byte strings. |
| Fingerprint.LittleEndianInjective | build_fingerprint.rs:158 | The length prefix determines the length. |
| Fingerprint.FrameExactly | build_fingerprint.rs:157-160 | The first eight bytes are the length, least significant byte first, and the string follows. |
| Fingerprint.SettingsInOrder | build_fingerprint.rs:18-36 | The build stream is the source fingerprint, the settings in rising order, key before value, and the compiler. |
| Fingerprint.SettingsExactly | build_fingerprint.rs:29 | Settings are ordered by key and then by value. |
| Fingerprint.BytesExactly | build_fingerprint.rs:29 | Bytes are ordered at the first difference, and a proper prefix comes first. |
| Fingerprint.Framed | build_fingerprint.rs:157-160 | The two updates append exactly the frame. |
| Fingerprint.CombineBuildFingerprint | build_fingerprint.rs:41-47 | The hasher is fed the stream of the three parts in order. |
| SourceTree.SourceFingerprint | build_fingerprint.rs:49-79 | The loop feeds names and contents of the sorted list, in which embedded files were sorted and deduplicated before, and nothing else. |
| SourceTree.NextFile | build_fingerprint.rs:67-77 | Each further file feeds the frame of its name and then that of its content. |
| SourceTree.ListingInOrder | build_fingerprint.rs:65 | Files are fed in rising order of their paths. |
| SourceTree.PathsExactly | build_fingerprint.rs:65 | Paths are ordered by components; `..` comes before every other name and a path before those below it. |
| SourceTree.ListingOrderIsIrrelevant | build_fingerprint.rs:50-65 | Every order in which directories and sources list the files gives the same bytes if and only if no file is collected under two names and none is embedded under two. |
| SourceTree.FirstSpellingIsHashed | build_fingerprint.rs:112-114 | Of one file embedded under two names the one that is listed first decides the bytes. |
| SourceTree.DottedSpelling | build_fingerprint.rs:112-114 | That happens for a file and its spelling with an inner dot. |
| SourceTree.ListingClass | build_fingerprint.rs:64-65 | Of each path the list holds the collected entries in their order and then the first embedded one. |
| KeyedSort.SortedByClasses | build_fingerprint.rs:65 | A list sorted by a key is known by its elements of each key in their order. |
| KeyedSort.SortKeepsClass | build_fingerprint.rs:65 | Sorting by a key keeps the order of elements with equal keys. |
| KeyedSort.DedupClass | build_fingerprint.rs:112-113 | Of sorted elements with equal keys deduplication keeps the first. |
| SourceTree.NamesTellPiecesApart | build_fingerprint.rs:68-72 | Two paths have the same name if and only if splitting their components at backslashes gives the same pieces. |
| SourceTree.BackslashCollides | build_fingerprint.rs:71 | Two paths, one with a backslash, that share their name. |
| SourceTree.StreamShowsListing | build_fingerprint.rs:65-77 | Two trees feed the same bytes if and only if, in path order, they have the same names and contents. |
| SourceTree.SourceStreamIdentifiesTree | build_fingerprint.rs:49-79 | If names and paths of the listed files correspond, two trees feed the same bytes if and only if they hold the same files, as often, with the same contents. |
| SourceTree.SharedNameHidesTree | build_fingerprint.rs:68-77 | Any two different paths that share a name make two trees with one stream; any two names of one path make two streams of one tree. |
| Fingerprint.BuildStreamInjective | build_fingerprint.rs:6-37 | Build streams are equal if and only if source fingerprint, settings in any order, and compiler are. |
| Orders.SortIgnoresOrder | build_fingerprint.rs:25-65 | Sorting by an ordering gives one result for every arrangement of the same elements. |
| RustLiteral.RustStringLiteral | build_fingerprint.rs:130-155 | The loop returns the decoded body and the byte offset past the first unescaped quote, or none. |
| RustLiteral.LiteralIff | build_fingerprint.rs:130-155 | The reader succeeds if and only if the text is a quote, a body and a closing quote, and then returns that body decoded, whatever follows. |
| RustLiteral.BodyEndIsQuote | build_fingerprint.rs:146-149 | The end found is the one quote preceded by a complete body. |
| RustLiteral.EscapeRoundTrip | build_fingerprint.rs:139-149 | Every string, escaped and quoted, is read back with the offset just past its quote, whatever follows. |
| RustLiteral.CharactersExactly | build_fingerprint.rs:138-149 | The three escapes that stand for another character, all others standing for themselves, and the bytes of a character. |
| Migration.MergeIsUnion | src/bin/archon_learning_migrate.rs:188-200 | The target's keys become the union and no row that was there changes. |
| Migration.FirstRowWins | src/bin/archon_learning_migrate.rs:191-199 | A new row is the first the source offers for its key. |
| Migration.RowKeyInjective | src/bin/archon_learning_migrate.rs:228-241 | Rendered keys are equal if and only if the keys are. |
| Migration.ResumeReachesTheSameTarget | src/bin/archon_learning_migrate.rs:110-130 | Interrupted after any row and rerun in full, one source gives the uninterrupted target, and a further run adds nothing. |
| Migration.ResumeTwoSources | src/bin/archon_learning_migrate.rs:89-138 | With a second source in between, the keys still agree. |
| Migration.SwitchesSourceExactly | src/bin/archon_learning_migrate.rs:89-138 | For all targets, sources and interruptions, the rows after the rerun are those of an uninterrupted run if and only if both sources offer the same first row for every key still to come that both hold. |
| Migration.InterruptionCanSwitchSource | src/bin/archon_learning_migrate.rs:113-123 | Two sources for which they are not. |
| Migration.MergeValue | src/bin/archon_learning_migrate.rs:191-199 | Every row of the target is an old one or the first offered for its key. |
| Migration.CopyRow | src/bin/archon_learning_migrate.rs:192-199 | One row is skipped, added or refused; the set of known keys stays that of the target. |
| Migration.CopyRows | src/bin/archon_learning_migrate.rs:188-205 | After any interruption the target is the merge of exactly the rows dealt with; complete, copied is the growth and copied plus skipped the rows. |
| Migration.CopyRelation | src/bin/archon_learning_migrate.rs:168-206 | Every row of the relation is dealt with, the missing and the empty relation included; complete, copied is the growth and copied plus skipped the number of its rows. |
| Migration.MigrateRelation | src/bin/archon_learning_migrate.rs:113-128 | The same seen from the whole work of a source. |
| Migration.MigrateSource | src/bin/archon_learning_migrate.rs:89-144 | However it ends, old rows stay and each new row is the first of its relation with its key in a relation that is named. Finished, every row of every named relation has its key in the target. Unless it failed, copied plus skipped is the number of rows, and missing the number of absent relations, of the first relations it finished, which are all when it finished. A lock ends it quietly, another fault with an error. |
| Migration.WorkOffers | src/bin/archon_learning_migrate.rs:110-130 | What a source has to offer are the rows of the named relations, no more and no less. |
| Migration.WorkCounts | src/bin/archon_learning_migrate.rs:110-130 | Their number is the sum of the sizes of those relations. |
| Coalescer.ShedKeeps | src/event_coalescer.rs:116-122 | Exactly the k oldest progress events go, k the smaller of their number and the excess; everything else stays in order, and then no progress is left or the cap is met. |
| Coalescer.EventCoalescer.Push | src/event_coalescer.rs:90-123 | Merging and the two loops together are one shedding to the smaller cap, for every classifier and caps. |
| Coalescer.EventCoalescer.ShedToHardCap | src/event_coalescer.rs:116-121 | The first loop removes the oldest progress events down to the hard cap or until none is left. |
| Coalescer.EventCoalescer.ShedToSoftCap | src/event_coalescer.rs:122 | The second goes on to the closed form for both caps. |
| Coalescer.EventCoalescer.DropOldestProgress | src/event_coalescer.rs:131-142 | The first progress event is removed, or nothing if there is none. |
| Coalescer.EventCoalescer.Append | src/event_coalescer.rs:91-115 | A delta is merged into a last one of its kind, everything else is appended. |
| Coalescer.MergedExactly | src/event_coalescer.rs:91-115 | Two text deltas, two thinking deltas or two transient ones become one with both texts; everything else is put behind. |
| Coalescer.EventCoalescer.Pop | src/event_coalescer.rs:125-127 | The first event is taken, if there is one. |
| Coalescer.MergeLosesNothing | src/event_coalescer.rs:91-113 | Merging keeps every character and event in order. |
| Coalescer.RunsAreLossless | src/event_coalescer.rs:36-127 | Under the shipped classification, popped events and buffer are the pushed sequence item by item for every interleaving, and no two adjacent deltas are of one kind. |
| Coalescer.SameKindExactly | src/event_coalescer.rs:91-113 | Which two events are of one kind, constructor by constructor. |
| Coalescer.PriorityOf | src/event_coalescer.rs:36-59 | The shipped classification never yields progress. |
| Coalescer.WithoutFirstKeepsApart | src/event_coalescer.rs:116-142 | Removing the oldest droppable events leaves no two adjacent deltas of one kind if and only if no two survivors of one kind lose everything between them. |
| Coalescer.PushKeepsApart | src/event_coalescer.rs:90-123 | The same of the buffer after a push, for every classifier and caps. |
| Coalescer.DropKeepsApart | src/event_coalescer.rs:131-142 | For one removal from such a buffer: if and only if the event stood between two of one kind. |
| Coalescer.SheddingCanLeavePair | src/event_coalescer.rs:116-122 | With a classifier that does yield progress, a push sequence that leaves such a pair. |
| VersionSpec.CompareIsPreorder | scripts/setup-trading-tools-python-probe.py:10-19 | Comparison is a total preorder; ties are equal stripped releases with equal pre-release parts. |
| VersionSpec.ReleaseOrder | scripts/setup-trading-tools-python-probe.py:13-18 | Release comparison is the order at the first difference of the zero-extended releases. |
| VersionSpec.AgreesWithStrippedTuples | scripts/setup-trading-tools-python-probe.py:66-68 | It agrees with lexicographic order on stripped tuples, the form of the sort key. |
| VersionSpec.StripRelease | scripts/setup-trading-tools-python-probe.py:66-68 | The loop removes exactly the trailing zeros. |
| VersionSpec.Strip | scripts/setup-trading-tools-python-probe.py:13-14 | The stripped release is the prefix with a non-zero end and only zeros after it. |
| VersionSpec.Trichotomy | scripts/setup-trading-tools-python-probe.py:32-50 | Exactly one of below, equal and above holds, and the other clauses follow from them. |
| VersionSpec.CheckClause | scripts/setup-trading-tools-python-probe.py:28-53 | A parsed clause is an error exactly for a label without serial, a wildcard with another operator, or a compatible clause of one component; a wildcard clause asks whether the release starts with its prefix. The other clauses are in `ClausesExactly`. |
| VersionSpec.ClausesExactly | scripts/setup-trading-tools-python-probe.py:39-57 | What each of the seven operators asks, in terms of the first difference of the zero-extended releases and of the pre-release parts. |
| VersionSpec.WantedPreExactly | scripts/setup-trading-tools-python-probe.py:31 | The pre-release part of a clause, label by label. |
| VersionSpec.CompareIsPrecedes | scripts/setup-trading-tools-python-probe.py:10-19 | Comparison is the order by release and then by pre-release, both ways. |
| VersionSpec.CompatibleExactly | scripts/setup-trading-tools-python-probe.py:51-57 | For every interpreter and clause, compatible holds if and only if it is at least V with the same prefix, or a pre-release of the next prefix. |
| VersionSpec.ReadingsDifferExactly | scripts/setup-trading-tools-python-probe.py:33-57 | For every interpreter and clause, compatible is at-least together with the prefix wildcard, if and only if the version is no pre-release of the next prefix, and not one at least V whose release is shorter than the prefix and equal to it but for zeros. |
| VersionSpec.CompatibleIsPrefixMatch | scripts/setup-trading-tools-python-probe.py:51-57 | For a final interpreter and two to four components it is exactly at-least together with the prefix wildcard. |
| VersionSpec.PreReleaseSlipsThrough | scripts/setup-trading-tools-python-probe.py:54-57 | A pre-release interpreter for which the two differ. |
| VersionSpec.FiveComponentsDiffer | scripts/setup-trading-tools-python-probe.py:33-36 | A clause of five components for which the two differ. |
| NameScan.CollectNames | build.rs:161-181 | The set gains exactly the names in the text, which `NamesExactly` states in characters: one for every run of name bytes that holds the prefix, from its leftmost occurrence to the end of the run, if anything follows the prefix. |
| NameScan.NamesExactly | build.rs:161-181 | A name is found if and only if it stands in the text beginning with `ARCHON_`, going on beyond it, of name bytes only, not to be prolonged, with no occurrence before it in its run. |
| NameScan.NameBytesExactly | build.rs:167-170 | The name bytes, one by one. |
| NameScan.EndOfName | build.rs:166-173 | The inner loop stops at the end of the run. |
| NameScan.OneRunFurther | build.rs:164-179 | Each round adds the name of one run, and no occurrence reaches over the next start. |
| NameScan.OneLeftmostPerRun | build.rs:164-165 | Every occurrence lies in a run with exactly one leftmost occurrence. |
| HookMerge.Settings.Merge | plugins/merge-hooks.js:28-41 | The nested loops append as the model says and count what they append. |
| HookMerge.GrowthIsDifference | plugins/merge-hooks.js:27-40 | The number reported is by how much the entries under the events of the snippet have grown. |
| HookMerge.SectionExactly | plugins/merge-hooks.js:28-40 | Only the event of a section is touched, it is there afterwards, and its entries are taken one after another. |
| HookMerge.Settings.MergeSection | plugins/merge-hooks.js:29-40 | The known commands stay those of the list while it grows. |
| HookMerge.CommandsOf | plugins/merge-hooks.js:25-26 | Exactly the commands that are present and not empty. |
| HookMerge.InstalledGrows | plugins/merge-hooks.js:28-41 | Over any sequence of merges original entries stay an in-order prefix and every merged command is present. |
| HookMerge.PresentIsAbsorbed | plugins/merge-hooks.js:34-39 | With all commands present, merging adds nothing if and only if every entry has one. |
| HookMerge.ReinstallIsAbsorbed | plugins/merge-hooks.js:34-39 | Merging an earlier snippet again after any others changes nothing if and only if all its entries carry a command. |
| HookMerge.SkippedExactly | plugins/merge-hooks.js:35-36 | An entry is skipped if and only if it has commands and each of them stands in some entry of the event; otherwise it is appended. |
| HookMerge.SkippedByOneCommand | plugins/merge-hooks.js:3-4 | For an entry with one command that is the documented rule. |
| HookMerge.SkippedThoughNoneIsTheSame | plugins/merge-hooks.js:35-36 | An entry with two commands that is skipped although no entry has the same commands. |
| HookMerge.Settings.MergeEntry | plugins/merge-hooks.js:34-39 | One entry is skipped or pushed, and the known commands stay those of the list. |
| AcpPump.RunKeeps | src/command/acp.rs:87-103 | In every interleaving, forwarded events and queue are the emitted sequence, the client sees their visible part in order, and a finished drain has passed the turn's end. |
| AcpPump.UpdatesAreVisible | src/command/acp.rs:136-176 | Without failed turns the client's updates are the order-preserving filter-map of the forwarded events. |
| AcpPump.ForwardedExactly | src/command/acp.rs:136-191 | Which update each event becomes, event by event, with the cut of long results; the tool kinds are those of crates/archon-acp/src/protocol.rs, name by name. |
| AcpPump.EmittedExactly | src/command/acp.rs:91-103 | What is counted as emitted is every event of the agent, in any phase. |
| AcpPump.EarlierEventsAreForwarded | src/command/acp.rs:100-103 | Before a prompt returns, every event emitted before its turn ended has been forwarded. |
| AcpPump.PromptCompletes | src/command/acp.rs:81-120 | From every moment of every run at which a prompt waits and none runs, its turn and one attempt for each queued event and one more lead to its return, with everything emitted forwarded and its stop reason recorded. |
| AcpPump.EventChannel.Pump | src/command/acp.rs:91-103 | The select loop and the drain forward in order, stop at the first finished turn, and leave nothing queued. |
| AcpPump.EventChannel.Drain | src/command/acp.rs:101-103 | The drain forwards the whole queue in order. |
| AcpPump.Truncate | src/command/acp.rs:185-191 | Short results are shown whole, of long ones the first part of the allowed length and the marker. |
| AcpPump.RunIsOrdered | src/command/acp.rs:73-82 | Every prompt waits, runs or has stopped, and the stored token is the last prompt's. |
| AcpPump.CancelHitsTheLastPrompt | src/command/acp.rs:75-128 | A cancel reaches the running turn if and only if no later prompt has stored its token. |
| AcpPump.CancelCanMiss | src/command/acp.rs:123-128 | The shortest run in which it misses. |
| AcpPump.StopReasonIsExact | src/command/acp.rs:105-120 | Consequence of RunIsOrdered: a return records one reason, of a prompt that had none, changes no other, and sends the error's message exactly for a failed turn. |
| AcpPump.StopHasItsReturn | src/command/acp.rs:105-120 | Every recorded stop of a run comes from one return of that prompt and is the reason that token and outcome gave at that moment. |
| AcpPump.CancelledOnRequest | src/command/acp.rs:123-128 | A token is cancelled only by a cancel issued while it was the stored one. |

## Left out

- Floating-point rounding of scores: scores are real numbers.
- SHA-256: equality is proved of the hashed streams, not of digests.
- The database engine: a relation is a map, a query comes back in key order, and an upsert is accepted or refused as a whole.
- Identifiers of the profile store: they are positions in key order, and drawn ones are assumed new; time stamps are integers.
- Profile section hashes and creation times of versions, the world-model evidence of an evaluation, and the reports that are printed.
- JSON text: an inverse pair of functions without raw newlines; a request is read from an object, not from the array form the decoder also accepts.
- GuardianWire.LineRoundTrip: paths are texts, so paths that are not Unicode are not covered, and build jobs are assumed to fit 32 bits as their type has it.
- Guardian.ReadRequest: an interrupted poll counts as a failed one, as in the code; the variant for other systems than Unix is not modelled.
- Guardian.Deliver: the final flush is part of the last chunk, and what the launcher does after delivery (waiting, killing, collecting diagnostics) is left out.
- ProfileOverlap.OverlapKeepsExactly: the reads of one command are taken together.
- VersionSpec.CheckClause: the result of a clause without wildcard is stated by ClausesExactly and not in its contract.
- ProfileCommands.LearningStore.RunShadowEvaluation: the task set of an evaluation, which is only stored, and its evidence record are not modelled.
- WebSocketClient.ArchonClient.OnClose: a socket is assumed to fire its close event once.
- The lease and its file lock, process spawning, and the observation itself.
- Digest checks and chain validation before the selection: calls into other crates.
- RpcCalls.RunKeepsInv: ids are unbounded, so the end of exact integers in JavaScript numbers (2^53) is not modelled.
- StdioClient.ArchonStdioClient.DispatchNotification: what a handler does besides throwing is left out.
- WebSocketClient.ArchonClient.HandleMessage: a notification reaches its handlers as one record; the client puts an empty object for absent parameters, and an exception of a handler ends only that event.
- The directory walk and the search for embedded files before the paths are sorted.
- SourceTree.SourceStreamIdentifiesTree: path names are bytes already, so the lossy conversion of names that are not UTF-8 is not modelled.
- Migration.MigrateSource: a missing source file and opening the source are one operation that may meet the fault; backup and schema creation are left out.
- VersionSpec.AgreesWithStrippedTuples: only the release part of the sort key; epochs, post, dev and local parts, and the parsing of the clause text are not modelled.
- HookMerge.Settings.Merge: events named like inherited object properties and entries whose commands are not texts are not modelled.
- Coalescer.EventCoalescer.Push: all events that are never merged are one kind carrying a name.
- AcpPump.RunKeeps: the bounded event channel's back-pressure, that is, when the agent may emit, is left to the interleaving.
- Command-line arguments, printing, the terminal interface, and the wiring of sessions: declarations without state.
