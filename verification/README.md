# Lantern's squad state machine, in Dafny

Lantern keeps the state of a squad of coding agents in SQLite: sessions, agents, work items,
acknowledgements, dispatches, an orchestrator inbox, discovery cards, subscriptions, leases
and terminal targets. MCP handlers, a nudge loop, `doctor-state`, `startwork` and `stopwork`
change these tables. This project models the tables as state and those programs as steps, and
proves what holds over all runs.

There are three views of the same system, connected by proof.

- **The coarse machine** (`Squad.dfy`, `Runs.dfy`): one accepted or refused call is one atomic
  step, written as a function from store to store. Run-wide theorems are about it: log replay
  and absorption (`Items.dfy` for work items, `AgentLog.dfy` for agent rows), the auto-heal loop
  (`Heal.dfy`), inbox conservation (`Inbox.dfy`, and `NudgeInbox.dfy` for what a nudge says),
  isolation of sessions (`Isolation.dfy`), agent-row invariants (`Runs.dfy`), active sessions
  (`ActiveSessions.dfy`), nudge latency (`Latency.dfy`). `Effects.dfy` says in plain columns
  what single calls leave behind for later ones.
- **The database object** (`Relay.dfy`, `DoctorState.dfy`): a class with one mutable field per
  table, a method per query, and handlers as the sequences of queries and loops they are. Each
  handler is proved to be the coarse step.
- **The fine machine** (`NudgeClock.dfy`): single SQL statements of any number of handlers,
  interleaved with the steps of the nudge scan. The throttle and the silence bound are proved
  there, and `Flags.dfy` says which interleavings leave an agent row inconsistent.
  `Latency.dfy` and `Refinement.dfy` prove every coarse run to be one of its runs.

`Reachable.dfy` gathers what holds in every state reachable from the empty database.

Beside these: launch and teardown over an abstract git (`Launch.dfy`), slot allocation
(`Slots.dfy`), the id codecs (`Codecs.dfy`), shell quoting read back by a POSIX shell reader
(`Shell.dfy`, after sections 2.2.1 to 2.2.3 of POSIX.1-2017 XCU chapter 2), cwd detection
(`Cwd.dfy`), timestamps compared as text (`Rfc3339.dfy`, and `Clock.dfy` for the columns that
queries order by), doctor repair (`Doctor.dfy`) and
migrations 003 and 006 (`Migrations.dfy`).

## How the code is read

- Times are nanoseconds since 1970. `num_milliseconds` truncates towards zero, so
  "more than 900 000 ms" is "at least 900 001 ms" in nanoseconds.
- Everything from outside comes in with the call: the clock, generated ids, process liveness,
  discovered runs. Generated ids are new (`Runs.Fresh`); statements whose result the code
  ignores succeed.
- Where SQL leaves open which of several rows is returned, any of them can be: the choice is
  a `hint` that every theorem quantifies over.
- Status text is a datatype with a lossless reading of any string; composed prompt and summary
  text is kept by its parts (`Tables.Text`).
- The documentation describes delivery owned by Temporal; the handlers use SQLite alone, and
  so does the model. Run discovery always fails in the shipped code, which is the case
  `env.discovered == {}` of the doctor theorems.

## What turned out not to hold

Each has the exact condition under which the promise does hold.

- "Status 'busy' or an active task means the busy flag" survives every coarse step but not
  single statements. Over any interleaved run the task half holds in every state iff no
  statement lowers the flag of a row that holds a task (`Flags.TasksFlaggedThroughout`), and
  the status half iff none makes an unflagged row 'busy' or lowers the flag of a 'busy' one
  (`Flags.BusyFlaggedThroughout`). The handlers' own pairs of statements fail in three ways: a
  completion when a task given, or a status 'busy' set, in between comes last there
  (`Flags.CompletionPairExactly`); a dispatch when the flag is lowered in between and not
  raised again (`Flags.DispatchPairExactly`); any other report only until its second
  statement, with nobody in between when the agent was idle (`Flags.ReportPairExactly`).
- A finished item changes exactly when an accepted report names it by assignment id and alters
  it, from its own session or another; a blocked one also when auto-heal resumes its task
  (`Items.ClosedItemsInRun`). Sessions are isolated except for such ids and for message ids
  (`Isolation.AssignmentReachesExactly`, `Isolation.ClearReachesExactly`).
- One doctor pass is not always final (`Doctor.OnePassSufficesExactly`).
- Cleanup finds the repository by the first marker in the path, so a launch is undone exactly
  when that directory belongs to the launched repository (`Launch.LaunchThenStopIsIdentity`);
  a checkout below another one's worktree directory fails it (`Launch.SubmoduleLaunchStays`).
- The slot after 2^32-1 wraps to 0 in a release build (`Slots.AllocatedIdIsFresh`,
  `Slots.TopSlotWraps`).
- Shell quoting doubles backslashes, which single quotes keep (`Shell.EscapeReadsBack`).
- A clock before 1970, or an empty task id, loses the parent of an auto-fix id
  (`Codecs.AutoFixRoundTrip`), and such a clock makes two tasks share one id
  (`Codecs.AutoFixCollidesExactly`).

## Model

| member | source | states |
|---|---|---|
| Codecs.AutoFixRoundTrip | src/mcp/tools.rs:583-584 | Parsing a generated auto-fix id gives back its task iff the task is non-empty and the millis are not negative; dashes and nested auto-fix ids in the task are no obstacle. |
| Codecs.AutoFixParentExact | src/mcp/tools.rs:613-620 | The ids that resume a given parent are exactly those of the form auto-fix, non-empty parent, dash, dash-free rest. |
| Codecs.AutoFixCollidesExactly | src/mcp/tools.rs:583-584 | Two (task, millis) pairs share an auto-fix id exactly when they are read as the same pair, a minus sign becoming a dash of the task. |
| Codecs.AutoFixInjective | src/mcp/tools.rs:583-584 | So for millis since 1970 different pairs never share an id. |
| Codecs.SessionRoundTrip | src/mcp/tools.rs:925-934 | Reading back a workspace session id gives its name and number, for every name. |
| Codecs.SessionIdInjective | src/startwork/mod.rs:959-961 | A session id determines name and number. |
| Codecs.ParseSessionExact | src/mcp/tools.rs:925-934 | A session id parses to exactly the name before its last dash and the number the rest reads as, within 64 bits. |
| Slots.MaxEntrySlot | src/startwork/mod.rs:971-985 | The directory scan returns the greatest slot any entry parses to, or 0. |
| Slots.EntrySlotExact | src/startwork/mod.rs:973-983 | An entry takes a slot exactly when it is the project name, a dash and a text that reads as a 32-bit number. |
| Slots.MaxRowSlot | src/startwork/mod.rs:988-994 | The sessions query returns the greatest slot stored for the project, or 0. |
| Slots.AllocateSessionNumber | src/startwork/mod.rs:965-1002 | The result is one past, in 32-bit arithmetic, the greatest slot taken by a directory entry or a session row of the project. |
| Slots.AllocatedIdIsFresh | src/startwork/mod.rs:965-1002 | The allocated id is in use neither on disk nor in the table, except exactly when slot 2^32-1 is taken and the wrapped id is in use. |
| Slots.TopSlotWraps | src/startwork/mod.rs:1001-1001 | With slots 2^32-1 and 0 on disk the allocated id is one of them. |
| Shell.EscapeReadsBack | src/startwork/mod.rs:939-941 | A POSIX shell reads an escaped string as one word, the string with each backslash doubled; it is the string itself iff it has no backslash. |
| Shell.ReadCommandLine | src/startwork/mod.rs:939-941 | A whole command line of escaped arguments is split back into exactly those arguments, backslashes doubled. |
| Shell.DoubledJoin | src/startwork/mod.rs:939-941 | The doubling is character by character, whatever the surroundings. |
| Cwd.DetectSessionFromCwd | src/stopwork/mod.rs:85-110 | The two nested climbs terminate and return the component after the innermost marker pair that has a child, and nothing else. |
| Cwd.LaunchedWorktreeIsFound | src/stopwork/mod.rs:85-110 | From any directory of a launched worktree the answer is that session, or the name after a marker pair deeper down. |
| Cwd.StopworkFromWorktree | src/stopwork/mod.rs:55-83 | Without argument or environment, stopwork run inside a launched worktree picks its session however many are active. |
| Rfc3339.TextOrderIsTimeOrder | src/db/queries.rs:249-258 | For UTC timestamps printed with 0, 3, 6 or 9 fraction digits, text comparison is strict time order both ways, and equal texts are equal instants. |
| Rfc3339.TextShape | src/db/queries.rs:249-258 | The text is date, T, time of day and offset, in fixed-width digits and the punctuation of RFC 3339. |
| Clock.OneText | src/db/queries.rs:249-258 | Every time up to the year 9999 has exactly one text. |
| Clock.ReadingByText | src/mcp/tools.rs:1129-1132 | An inbox answer in order of its text column is in order of arrival. |
| Clock.NewestBlockedByText | src/mcp/tools.rs:623-627 | The newest blocked item by text is the newest by time. |
| Clock.LatestLeaseByText | src/mcp/tools.rs:340-345 | The newest lease by text is the newest by time. |
| Runs.AgentsStep | src/mcp/tools.rs:402-430 | Each step keeps the agent rows by key, the uniqueness of id and of (session, role), and: status 'busy' or an active task implies the busy flag, the flag implies a signal time. |
| Runs.AgentRowsInEveryRun | src/mcp/tools.rs:402-430 | The same over every run of any steps. |
| AgentLog.AgentLogReplay | src/mcp/tools.rs:402-430 | In every run each agent row (status, busy flag, task, signal, nudge, seen) is the fold of its history: creation, reports, dispatches by hand or auto-heal, messages, nudges, doctor passes that missed its run, launch errors, with each result written out. |
| AgentLog.StepEvents | src/mcp/tools.rs:549-556 | One call changes each agent row by exactly the events it has for that row. |
| AgentLog.ReportSetsColumns | src/mcp/tools.rs:402-430 | A report makes its sender idle on complete, failed on failed, degraded on blocked or degraded, busy otherwise; the first two drop task and flag, the others raise the flag and take the named task. |
| Runs.SilenceIsMeasured | src/autoheal.rs:84-87 | In every reachable state a nudge candidate has a signal time, so the maximal-silence fallback is never taken. |
| Runs.InsertKeepsUnique | src/db/queries.rs:29-50 | Registering a launch by insert-or-ignore keeps the lease key unique and the earlier rows as they are. |
| Runs.FindByRoleIgnoresRowOrder | src/mcp/tools.rs:325-335 | With unique lease keys, finding an agent by role gives the same row in any row order. |
| Items.LogReplay | src/mcp/tools.rs:374-400 | In every run, folding acknowledgements and auto-resumes over rows created as delivered gives exactly the status and stamp columns, and the folded acknowledgements are exactly the table. |
| Items.StepAgrees | src/mcp/tools.rs:635-644 | One step keeps the tables in agreement with the journal it extends. |
| Items.GenerationGuard | src/mcp/tools.rs:337-353 | A report whose generation is not that of the item's newest lease changes nothing; one whose generation is, or without a lease, is accepted. |
| Items.ItemsInEveryRun | src/mcp/tools.rs:998-1018 | In every run item ids are unique and each item's target agent exists, in the item's session and with its target role. |
| Items.ReportFindsOpenItem | src/mcp/tools.rs:355-372 | The target's report on a dispatched task resolves to an open item of that task and agent, sets its status and leaves every other item alone. |
| Items.ReportFindsNewItemExactly | src/mcp/tools.rs:355-372 | It is the dispatched item, whichever row the query returns, iff no earlier one was open. |
| Items.AckKeepsText | src/mcp/tools.rs:390-399 | The acknowledgement filed gives back the report's status text, whatever string it was. |
| Items.ItemStep | src/mcp/tools.rs:355-388 | One step changes a finished item iff it is an accepted report that names it by assignment id and alters it, and a blocked one iff it is that or auto-heal resumes its task in its session, to in-progress. |
| Items.ClosedItemsInRun | src/mcp/tools.rs:623-644 | Over every run a finished or blocked item stays the same row iff no step of the run disturbs it in that way. |
| Isolation.AssignmentReopensItem | src/mcp/tools.rs:355-355 | In a sound state a finished item is reopened by its id, from another session and from its own. |
| HealLoop.BlockedSpawnsRepair | src/mcp/tools.rs:571-608 | A blocked report adds a repair dispatch iff it names a task and its evidence is TypeScript-shaped; then exactly that one row, for role ai. |
| HealLoop.BlockedDispatchExactly | src/mcp/tools.rs:571-608 | An accepted blocked report adds a dispatch iff it names a task and typescript, typecheck or exactoptional occurs, in any letter case, in its validation, or its summary when it has no validation; every column of that row is given. |
| HealLoop.AnyCaseHasTypeWord | src/mcp/tools.rs:574-581 | One of the words in any mix of letter cases, with any text around it, is enough. |
| HealLoop.CompleteResumesExactly | src/mcp/tools.rs:610-644 | A completion resumes a task iff it reports that task's repair and some item of the task in the session is blocked. |
| HealLoop.RepairDoneCloses | src/mcp/tools.rs:623-668 | Completing a repair unblocks every item of the parent, puts the owner of its newest blocked item to work on it and adds one dispatch. |
| HealLoop.LoopCloses | src/mcp/tools.rs:567-668 | The whole loop with any run in between, for every reporting role: two steps, one dispatch each, nothing of the task left blocked, its newest owner busy on it. |
| HealLoop.LoopCanRun | src/mcp/tools.rs:567-668 | Such loops exist for every session, role, non-empty task and evidence with one of the three words in any letter case anywhere in it. |
| HealLoop.NestedRepairResumesNothing | src/mcp/tools.rs:495-560 | Repair tasks have no work item, so in every run without hand-dispatched auto-fix ids the repair of a repair resumes nothing. |
| Inbox.ResolveOwn | src/mcp/tools.rs:182-194 | Looking a session up by the slug and slot read from its id gives that very id. |
| Inbox.HousedStep | src/startwork/mod.rs:1288-1360 | Every step keeps session ids canonical and every agent row in a session that has a row. |
| Inbox.InboxConservation | src/mcp/tools.rs:432-455 | Over every run each session's inbox grows by exactly one message per accepted report, per peer message to its orchestrator and per nudge of its agents. |
| Inbox.CountNudges | src/autoheal.rs:109-122 | A scan files one message per nudged agent, in that agent's session. |
| NudgeInbox.NudgeIsReadBack | src/autoheal.rs:109-122 | After a scan every reading of a due agent's session has a message with that row's id, its role, its task, status degraded, the whole minutes of silence and the scan's time, uncleared. |
| NudgeInbox.OnlyDueAreBlamed | src/autoheal.rs:79-108 | Every message a scan adds is about an agent that was due: busy on a task, silent for 900 001 ms, not nudged for 90 001 ms. |
| NudgeInbox.StampedScanKeepsInbox | src/autoheal.rs:79-127 | Stamps taken later than the scan's own time change no message. |
| Inbox.ReportIsReadBack | src/mcp/tools.rs:432-455 | An accepted report can be read back from its session with every field as reported. |
| Inbox.PeerIsReadBack | src/mcp/tools.rs:732-755 | So can a peer message to the orchestrator, under its sender's role. |
| Inbox.MessageFate | src/mcp/tools.rs:1088-1095 | Over every run messages are never dropped or altered, and a message is cleared iff a clear request named its id while it was stored. |
| Inbox.ReadReturnsUncleared | src/mcp/tools.rs:1119-1154 | A read after any run returns exactly the session's messages no clear request has named since they arrived. |
| Reachable.QuarantineInEveryRun | src/doctor_state.rs:103-129 | Over every run, launches between doctor passes included, a target is quarantined iff it has exactly one log row, targets only move forward, and stale and quarantined ones never change. |
| Reachable.TargetsAdded | src/db/queries.rs:52-67 | Registering new agents replaces no target and adds theirs, in pane order. |
| Reachable.LaunchedTargets | src/startwork/mod.rs:1341-1352 | Each pane of a launch gets a ready target, seen at the launch, with its iTerm id as pane. |
| Reachable.LaunchedTargetsStayReady | src/doctor_state.rs:204-215 | Targets of a launch with no dead process and no legacy look are left ready by every doctor pass within the threshold of the launch. |
| Reachable.ReachableIsSound | src/db/queries.rs:29-50 | Every state reachable from the empty database satisfies every invariant that a theorem or a method here asks of a store, those of the doctor run included. |
| Isolation.IsolatedStep | src/mcp/tools.rs:320-490 | A step for one session, without assignment id or message ids to clear, changes no row of another session in seven tables. |
| Isolation.IsolatedRun | src/mcp/tools.rs:320-490 | Nor does any number of such steps. |
| Isolation.ClearReachesExactly | src/mcp/tools.rs:1088-1095 | Clearing changes another session's rows iff it names one of its unread messages. |
| Isolation.AssignmentReachesExactly | src/mcp/tools.rs:374-388 | A report with an assignment id changes another session's items iff the id names one there that the update alters. |
| NudgeClock.OverdueInNanos | src/autoheal.rs:84-97 | The two truncated millisecond tests are exactly 900 001 ms of silence and 90 001 ms since the last nudge. |
| NudgeClock.StepKeepsThrottle | src/autoheal.rs:79-108 | Each statement of the scan or of a handler keeps the log of nudges in agreement with the stored stamps and the rows the scan still holds. |
| NudgeClock.NudgesAreThrottled | src/autoheal.rs:91-108 | Under any interleaving, the i-th and j-th nudge of one agent are at least (j-i) times 90 001 ms apart. |
| NudgeClock.NudgesInWindow | src/autoheal.rs:91-108 | So k nudges within w ms satisfy (k-1) times 90 001 at most w. |
| NudgeClock.NudgesFollowSilence | src/autoheal.rs:84-90 | Under any interleaving each nudge is at least 900 001 ms after the signal it read, which was never missing, and no row is busy without a signal time. |
| Flags.TasksFlaggedThroughout | src/mcp/tools.rs:420-430 | Under any interleaving every row with a task is flagged in every state iff no statement lowers the flag of a row that holds a task. |
| Flags.BusyFlaggedThroughout | src/mcp/tools.rs:402-430 | Under any interleaving every 'busy' row is flagged in every state iff no statement makes an unflagged row 'busy' or lowers the flag of a 'busy' one. |
| Flags.ExecutedRow | src/db/queries.rs:453-491 | What a list of statements does to the table it does to each row, by the statements that address it. |
| Flags.RowByLast | src/db/queries.rs:453-491 | Flag, task and status of a row are each decided by which statement on it came last. |
| Flags.CompletionPairExactly | src/mcp/tools.rs:423-424 | With any statements between the two of a completion, the row ends consistent iff no task given there outlives its clearing there and the last status is not 'busy'. |
| Flags.DispatchPairExactly | src/mcp/tools.rs:551-556 | With any statements between the two of a dispatch, the row ends consistent iff every lowering of the flag there has a raising after it. |
| Flags.ReportPairExactly | src/mcp/tools.rs:416-430 | With any statements between the two of another report, the row ends consistent, and before the second iff it is flagged by then or neither 'busy' nor holding a task. |
| Flags.DispatchInsideCompletion | src/mcp/tools.rs:423-424 | A dispatch inside a completion leaves a task and status 'busy' without the flag, out of the scan's sight. |
| Flags.CompletionInsideDispatch | src/mcp/tools.rs:551-556 | A completion inside a dispatch leaves status 'busy' without the flag. |
| Flags.AckFromIdle | src/mcp/tools.rs:416-430 | The first statement of an idle agent's acknowledgement leaves it 'busy' and unflagged until the second. |
| Latency.FirstNudge | src/autoheal.rs:84-97 | The first nudge after a signal is at the first scan past the silence threshold, within one scan period of it, never delayed by the throttle. |
| Latency.LaterNudges | src/autoheal.rs:91-97 | Later gaps are at least the throttle and less than one scan period more, and no nudge is left out. |
| Latency.GridGapIsTwoMinutes | src/autoheal.rs:57-75 | With scans exactly 30 s apart the gap is exactly 120 s. |
| Latency.SilentRunNudges | src/autoheal.rs:79-127 | In any coarse run in which an agent stays a silent candidate, its nudges are those of the schedule of scans. |
| Latency.FirstNudgeInRun | src/autoheal.rs:79-127 | In such a run with scans at most p ms apart the first nudge is measured in (900 000, 900 000 + p] ms. |
| Latency.LaterNudgesInRun | src/autoheal.rs:79-127 | And the later ones in (90 000, 90 000 + p] ms after each other. |
| Latency.SignalSilencesNudges | src/db/queries.rs:453-482 | A report, a dispatch and a peer message to a worker restart the clock: no scan within 900 001 ms nudges that agent. |
| Latency.HandlersAreStatements | src/mcp/tools.rs:402-430 | Every coarse step but the scan is, on agent rows, a list of handler statements of the fine machine. |
| Refinement.CoarseRunIsFineRun | src/autoheal.rs:79-127 | Every coarse run with a monotone clock has the agent rows of some fine run. |
| Doctor.ScopedIdsExact | src/doctor_state.rs:180-190 | The agents examined are exactly those of active sessions. |
| Doctor.PassOutcomes | src/doctor_state.rs:33-61 | For each examined target and each of the four statuses after a pass, exactly when it comes out: degraded if it was ready and its pane reads as a pid not alive, else quarantined on a legacy look, else stale if never seen or seen longer ago than the threshold. |
| Doctor.AnyCaseLooksLegacy | src/doctor_state.rs:244-257 | An iTerm id with tmux in any letter case anywhere in it looks legacy. |
| Doctor.LoggedRows | src/doctor_state.rs:116-144 | A pass only appends to the log, and each new row carries the columns of an examined target that looked legacy. |
| Doctor.RepairOfOne | src/doctor_state.rs:204-257 | Repairing a target changes only its transport status, never backwards; quarantine takes only legacy-shaped targets not yet quarantined, and a target marked stale is not legacy-shaped. |
| Doctor.DoctorRunsAreMonotone | src/doctor_state.rs:103-129 | Over any number of runs with any clocks, a target is quarantined iff it has exactly one log row, and stale and quarantined targets never change again. |
| Doctor.DoctorConverges | src/doctor_state.rs:33-61 | With clock, liveness and discovery fixed, a third pass changes nothing. |
| Doctor.OnePassSufficesExactly | src/doctor_state.rs:46-61 | One pass is final iff no target of a session that stays active was ready with a dead runner and also legacy-shaped or silent. |
| Doctor.SecondPassCanMatter | src/doctor_state.rs:103-114 | There is a store on which the second pass still changes something. |
| Doctor.ActiveSessionsAreDiscovered | src/doctor_state.rs:73-91 | After a pass the active sessions are exactly those active before that were discovered. |
| Doctor.WithoutDiscoveryOnePassSuffices | src/doctor_state.rs:259-261 | With discovery failing, as shipped, one pass is final. |
| DoctorState.Classify | src/doctor_state.rs:33-61 | The classification loops put each agent of an active session in the one list its target's verdict names, in order. |
| DoctorState.QuarantineTargets | src/doctor_state.rs:116-144 | The quarantine loop marks the listed targets and logs each that is not in the log yet, once. |
| DoctorState.DoctorRun | src/doctor_state.rs:18-175 | The run as a whole, early return included, is the one-step repair the doctor theorems are about. |
| Migrations.TargetTables.Migrate003 | migrations/003_iterm_terminal_targets.sql:21-65 | The migration's new target table and quarantine rows, all legacy columns kept, as functions of the legacy table. |
| Migrations.QuarantinedRowsCount | migrations/003_iterm_terminal_targets.sql:31-41 | Each legacy target gets one quarantine row if it is not an iTerm target and none otherwise. |
| Migrations.QuarantinedRowsExact | migrations/003_iterm_terminal_targets.sql:21-41 | The quarantine rows are exactly those of the targets that are not iTerm's, each legacy column in its place. |
| Migrations.MigrationStartsAgreement | migrations/003_iterm_terminal_targets.sql:43-62 | Targets are conserved one for one, and the log agrees with the table from there on through every doctor run. |
| Migrations.AgentLeases.Migrate006 | migrations/006_agent_lease_unique.sql:12-23 | The delete leaves the rows that rank first in their partition, in place. |
| Migrations.DedupeKeepsOnePerLease | migrations/006_agent_lease_unique.sql:12-26 | For each (session, role) exactly one row survives: greatest heartbeat, missing ones last, then greatest rowid. |
| Migrations.SurvivorsExactly | migrations/006_agent_lease_unique.sql:12-23 | A row survives iff no row of its session and role has a later heartbeat or, with the same one, a greater rowid. |
| Migrations.DedupeIdempotent | migrations/006_agent_lease_unique.sql:12-23 | Deduplicating again changes nothing. |
| Launch.BuildWindowDefs | src/startwork/mod.rs:641-743 | The loop builds one pane for each grid position, with its role, name and directory. |
| Launch.PanesAreDistinct | src/startwork/mod.rs:1170-1172 | The nine worktree panes have distinct names and distinct directories, whatever the project name. |
| Launch.Git.CreateWorktrees | src/startwork/mod.rs:1174-1250 | Creation succeeds as a whole, or some pane is refused and the others, in any order and with any of them dropped, are as the attempts left them. |
| Launch.LeftoversAreOurs | src/startwork/mod.rs:1186-1212 | Whatever was refused and dropped, only worktrees of the launch's own panes were added, each on its own new branch. |
| Launch.LaunchSucceedsExactly | src/startwork/mod.rs:1228-1262 | A launch succeeds in git iff none of its branches exists and none of its paths is a worktree. |
| Launch.Git.CleanupAgentWorktrees | src/stopwork/mod.rs:238-300 | Cleanup agent by agent, with the exact list reported; with preserve nothing changes and nothing is reported. |
| Launch.RemovedExactly | src/stopwork/mod.rs:262-280 | A directory is reported removed iff it was a worktree of its cleanup repository and some agent names it. |
| Launch.LaunchThenStopIsIdentity | src/stopwork/mod.rs:238-300 | Launch then cleanup, in any agent order, restores worktrees and branches of every repository iff the cleanup directory belongs to the launched one. |
| Launch.OrdinaryCheckoutQualifies | src/stopwork/mod.rs:255-260 | Cleanup runs git from the checkout itself iff no earlier marker lies on its path. |
| Launch.SubmoduleLaunchStays | src/stopwork/mod.rs:255-260 | A launch from a checkout below another one's worktree directory is not undone. |
| Launch.BranchFirstLeavesTheBranch | src/stopwork/mod.rs:232-236 | Deleting the branch before its worktree leaves the branch. |
| Launch.EveryPaneRegistered | src/startwork/mod.rs:1288-1360 | Registration inserts one row per pane, of the whole grid or of a solo launch, none of them ignored, when the session is new. |
| ActiveSessions.ActiveExactly | src/startwork/mod.rs:405-414 | Over every run a new session is active in the end iff its launch in the run is followed by no stop of it and by no doctor pass that did not discover its run. |
| ActiveSessions.SessionStatusInEveryRun | src/stopwork/mod.rs:213-216 | In every run every session is active or stopped. |
| ActiveSessions.StopworkPicksExactly | src/stopwork/mod.rs:55-83 | Without argument, environment and working directory, stopwork picks a session iff it is the one active session. |
| ActiveSessions.StopworkAfterOneLaunch | src/stopwork/mod.rs:55-83 | After one launch and nothing else that is the launched session. |
| Effects.LaunchLeaves | src/startwork/mod.rs:1288-1360 | A launch of a new session adds an active session row and, pane by pane, idle agents with role, directory and branch: nine, or one when solo. |
| Effects.FullLaunchServesWorkers | src/mcp/tools.rs:12-12 | After a full launch, however the run goes on, every accepted dispatch to the session finds an agent and adds a work item. |
| Effects.StopLeaves | src/stopwork/mod.rs:143-229 | Stopping marks the session stopped, deletes exactly the leases its agents hold and touches nothing else. |
| Launch.StopUndoesLaunch | src/stopwork/mod.rs:143-229 | From launch over registered rows, read back by session, to cleanup: git is as before under the same exact condition. |
| Relay.LookupInTwoSteps | src/mcp/tools.rs:325-335 | Reading a session's agents and taking the first with a role is one indexed lookup in the table. |
| Relay.ReachedExactly | src/mcp/tools.rs:1862-1874 | A publication reaches a role iff it is subscribed and its agent is busy. |
| Relay.SortedUnread | src/mcp/tools.rs:1119-1132 | The read returns the unread rows of the session, each as often as stored, by arrival time. |
| Effects.AcceptedExactly | src/mcp/tools.rs:968-995 | A dispatch is accepted iff no field is empty and the target is one of the eight worker roles. |
| Effects.DispatchLeaves | src/mcp/tools.rs:968-1040 | An accepted dispatch writes one dispatch row and, when the target has an agent, one delivered item for it, both column by column. |
| Effects.ResumeLeaves | src/mcp/tools.rs:623-668 | A completed report adds at most one dispatch, which puts the owner of the parent's newest blocked item back on the parent. |
| Effects.OtherReportsDispatchNothing | src/mcp/tools.rs:567-672 | A report neither blocked nor complete dispatches and resumes nothing. |
| Effects.UnassignedReportMoves | src/mcp/tools.rs:355-372 | A report without assignment id updates an item iff its sender has a leased, delivered, acked or in-progress item of the named task, and then one such item alone. |
| Effects.AckLeaves | src/mcp/tools.rs:390-399 | It then files one acknowledgement in its sender's name, with its generation or 1. |
| Effects.CardLeaves | src/mcp/tools.rs:672-700 | Complete, blocked and failed reports post one card each, typescript for blocked and environment otherwise, unless its id is taken; no other report does. |
| Effects.BlockerBlocksItem | src/mcp/tools.rs:1805-1813 | A blocker without assignment id on a task of which its sender has an unfinished item leaves one such item blocked and all others alone. |
| Effects.BlockerIsReadBack | src/mcp/tools.rs:1805-1813 | And is read back as blocked, with the caller's summary or the default one. |
| Squad.SaysNothingExactly | src/mcp/tools.rs:1755-1765 | A summary is replaced iff it is empty or a stock answer in any letter case, with any white space around it. |
| Effects.AckNamesNewestTask | src/mcp/tools.rs:1766-1800 | An ack without a summary is read back naming the task of its sender's newest active item, blocked ones included. |
| Effects.ReachedAfterRun | src/mcp/tools.rs:1846-1876 | After any run a publication reaches a role iff the role subscribed to the event in the run and its agent is busy by then. |
| Relay.Db.FindAgent | src/mcp/tools.rs:325-335 | The lookup loop finds the row of (session, role), or reports there is none. |
| Relay.Db.DispatchAndInject | src/mcp/tools.rs:495-560 | Dispatch row with files, next action and priority, then the target's clock and status: the coarse injection step. |
| Relay.Db.HandleAutoHeal | src/mcp/tools.rs:567-700 | The branches of auto-heal, statement by statement, are the coarse heal step. |
| Relay.Db.CheckReport | src/mcp/tools.rs:325-353 | The lookup and generation checks give the coarse reply and find the reporter's id. |
| Relay.Db.HandleReportStatus | src/mcp/tools.rs:320-490 | The handler's reply and the new tables are those of the coarse report step. |
| Squad.AckSaysSomething | src/mcp/tools.rs:1755-1800 | The summary an ack files is never blank or one of the stock answers, and its other fields are the caller's. |
| Relay.Db.HandleAck | src/mcp/tools.rs:1750-1803 | An ack is a report with status ack whose empty summary is replaced from the agent's newest active item; its reply is the report's. |
| Relay.Db.HandleBlocker | src/mcp/tools.rs:1805-1813 | A blocker is a blocked report with a default summary, and replies as one. |
| Relay.Db.DispatchTask | src/mcp/tools.rs:968-1040 | Validation, work item and injection are the coarse dispatch step; a refused call changes nothing. |
| Relay.Db.HandlePeerMessage | src/mcp/tools.rs:705-782 | The handler is the coarse peer step, and fails exactly when the target has no agent. |
| Relay.Db.HandlePing | src/mcp/tools.rs:1742-1748 | A ping is a peer message with fixed wording, and fails as one. |
| Relay.Db.OrchestratorInbox | src/mcp/tools.rs:1074-1154 | Named messages are cleared even for an unknown or malformed session; then the unread ones of the session come back by arrival time. |
| Relay.Db.HandleEventSubscribe | src/mcp/tools.rs:1818-1827 | Subscribing is the coarse step and refuses empty fields. |
| Relay.Db.PublishEvent | src/mcp/tools.rs:1846-1876 | The counting loop returns the number of subscribed roles whose agent is busy. |
| Relay.Db.NudgeOnce | src/autoheal.rs:79-127 | The scan loop, row by row and with the clock read anew for each stamp, is the scan step. |
| Relay.ScanAtItsOwnTime | src/autoheal.rs:79-127 | With every stamp at the scan's own time that is the coarse scan step. |
| Relay.Db.MarkLaunchError | src/startwork/mod.rs:1399-1404 | A launch error marks the role's agent failed, and changes nothing when there is none. |
| Relay.Db.Register | src/startwork/mod.rs:1288-1360 | Session row and registration loop are the coarse launch step; a taken id changes nothing. |
| Relay.Db.GetActiveSessions | src/db/queries.rs:260-265 | The query returns the ids of the active sessions, in table order. |
| Relay.Db.DeleteLeasesBySessionAgents | src/db/queries.rs:331-347 | The loop deletes exactly the leases of the session's agents and returns how many. |
| Relay.Db.StopSession | src/stopwork/mod.rs:143-229 | Stopping is the coarse step; an unknown session changes nothing. |

## Left out

- iTerm2 panes, prompt injection, goose processes and PID files: foreign processes whose failures the code swallows.
- Temporal client, worker and signals: off the delivery path.
- JSON-RPC framing, tool schemas, setup text, prompt wording: formatting.
- The events table: written by every handler and read by no modelled step; row ids and time stamps of log rows likewise.
- Environment scope checks: a call is one that passed them.
- Config merging, command line, trust files, skill copying: lookups and file I/O.
- Launch.BuildWindowDefs: label, colour, environment, command and agent kind of a pane are not modelled, because only role, name and directory reach the tables and git.
- Launch.Git.CreateWorktrees: a failing directory creation or git command is a refusal like an existing branch; copying skills into a worktree is not modelled.
- The code never inserts leases; they are an arbitrary table that stopping a session shrinks.
- Real git: worktrees and branches only, no pruning of missing directories and no removal of empty parents.
- Doctor's hash-map order over sessions is table order; only the order of new log rows depends on it.
- Latency.FirstNudgeInRun: for scans that stamp at their own time, as the coarse step does; the fine machine has a later stamp for each nudge.
- Isolation.IsolatedStep: acknowledgements, leases, targets and the quarantine log carry no session column and are not part of a session's view.
- Refinement.CoarseRunIsFineRun: about the agent rows, the only table the fine machine has.
- Lower-casing beyond ASCII and the Kelvin sign, the one other character that becomes a single ASCII letter.
- Among several leases of one item with the same newest creation time the last row is taken.
- Years past 9999, which print with a sign and more digits.
