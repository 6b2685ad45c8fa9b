# Verified models of the teammate coordinator and its neighbours

A Dafny project that models the parts of the agent runtime where ordering, sharing and bounds
matter, and proves what they keep over whole runs.

| file | models |
|---|---|
| `Mailbox.dfy` | a teammate's append-only inbox and its four consumers, interleaved step by step |
| `MailboxControl.dfy`, `MailboxStore.dfy` | what the control drain makes of the lead's requests over whole runs, and the inbox as the program holds it |
| `TaskList.dfy` | the shared task list: claiming, blockers, progress |
| `HandOut.dfy`, `HandOutOrder.dfy` | any number of teammates claiming and editing the list at once, and the order in which tasks are handed out |
| `TeammateRun.dfy`, `TeammateTurns.dfy` | the teammate's main loop: query, accounting, plan gate, idle, wait, and what each turn's observations call for |
| `TeammateNames.dfy`, `Roster.dfy`, `RosterStore.dfy` | unique names, and the roster on disk with its in-memory mirror |
| `RosterEffects.dfy` | what every roster operation leaves behind, field by field |
| `RosterRaces.dfy` | the roster with any number of callers between whose reads, writes and mirror updates others come |
| `Runner.dfy` | the bounded table of running agents and their execution handles |
| `BoundedRead.dfy` | three readers of hook output under one byte cap |
| `Dedup.dfy`, `Hooks.dfy`, `HookRegistry.dfy`, `HookRegistryStore.dfy` | hook identity, execution order, and the registry |
| `HookRaces.dfy` | the registry's two locks and its reload, with any number of callers |
| `AsyncHooks.dfy` | delivery of background and in-turn hook results |
| `ReplBridge.dfy` | the bridge's bounded outbound buffer across disconnects |
| `Calendar.dfy`, `Timeline.dfy` | the Gregorian calendar and the journey timeline built on it |
| `Text.dfy`, `KeyChord.dfy`, `KeyChordMeaning.dfy` | splitting and joining, the key-chord parser and printer, and what chords mean as text |
| `Prelude.dfy` | shared vocabulary |

Each component is a total step function over values and a run over an arbitrary sequence of steps;
the results are about every run. Where the program changes state in place there is also a class, and
what each of its methods does is proved to be those steps with nothing in between
(`MailboxStore.DrainMeaning`, `MailboxStore.PollOnceMeaning`, `HandOut.UndisturbedScan` and
`RosterRaces.ThreeStepsAreOne` say so where one call is several steps).

Where the code and its comments differ, the model follows the code, and the difference is a result:

* A title edit that overlaps a claim writes the old owner back, so one task can be handed out twice
  (`HandOut.OverlappingEditHandsOutTwice`); that happens exactly when an edit changes the owner of a
  claimed task and the task is claimed again (`HandOut.HandedOutTwiceIff`).
* A blocker added, or a completion written, while a task is being claimed is not seen by the claim and
  is erased by it (`HandOutOrder.HandedOutBlindIff`, `HandOutOrder.BlockerAddedDuringClaimIsIgnored`,
  `HandOutOrder.CompletionDuringClaimIsReverted`).
* The drain ignores a failed mark: the update is applied again, and an old mode can come back after the
  lead's last request (`MailboxControl.ScheduleIndependence`,
  `MailboxControl.FailedMarkAppliesRulesTwice`, `MailboxControl.FailedMarkBringsBackTheOldMode`).
* The idle flag is down at every loop head, so it never suppresses a report
  (`TeammateRun.IdleAlwaysReported`); the activity ring holds five calls.
* The team file is read and written back without a lock. A teammate's own mode write can erase a new
  member that the mirror keeps (`RosterRaces.TeammateWriteErasesReservation`), and two reservations can
  return one name (`RosterRaces.OverlappingReservationsShareAName`); exactly which ids an overtaken
  write erases or brings back is `RosterRaces.OvertakenWriteIff`.
* The roster's mirror is updated whatever team a request names (`Roster.ReserveMirrorsIff` and its
  counterparts for every other operation).
* An agent's own once-hooks are found again after they fired (`HookRegistry.AgentHookFiresAgain`,
  `HookRegistry.FiredIsFoundIff`); policy hooks come before session hooks.
* A checked hook registration and a removal take the registry's two locks in opposite orders and can
  wait for each other for good (`HookRaces.StuckIffDeadlocked`); a reload swaps hooks and keys apart from
  each other (`HookRaces.RemovalDuringReloadLeavesAKey`, `HookRaces.RegistrationDuringReloadDuplicates`).
* Registering an id again before delivery loses a result (`AsyncHooks.EveryHookDeliveredOnceIff`).
* A NUL character in a hook's text lets a hook that does something else share its key
  (`Hooks.KeyIsAloneIff`).
* Named arrow keys print as glyphs that read back as other keys (`KeyChord.CanonicalForm`).
* A send between reconnect and drain overtakes the buffer, and a send that read the state before the
  reconnect is stranded in it after the drain; exactly which steps keep the order is
  `ReplBridge.OrderIsKeptIff` (`ReplBridge.SendBeforeDrainOvertakes`, `ReplBridge.LateSendIsStranded`).
* Timestamps outside the calendar break the 33-row bound (`Timeline.LockedOutsideCalendar`).

Assumptions: the inbox file is read correctly inside its lock; one prompt scan and one control drain
serve an inbox, and one waiter a request id; the checks of a claim and its read of the list are one
step under the list's lock; an initialization looks for an active team when it reads the file, and a
mirror update is one step; an execution handle is offered once. Hook lists of agents and the keys of
fired hooks have locks of their own, under which their changes are one step. The clock, the order in
which hash tables are visited, failures of reads and writes, query results, loaded settings, pattern
matching and text decoding are inputs.

## Model

| member | source | states |
|---|---|---|
| `Mailbox.SelectPromptIsBest` | coco-rs/coordinator/src/runner_loop.rs:1161-1197 | the scan picks the unread prompt with the least (class, index), classes being shutdown, lead, peer, and picks nothing only when no prompt is unread |
| `Mailbox.SelectionGoesFirst` | coco-rs/coordinator/src/runner_loop.rs:1161-1197 | the scan chooses exactly the oldest unread shutdown request, without one the oldest unread text from the team lead, without that the oldest unread text |
| `Mailbox.PickMeaning` | coco-rs/coordinator/src/runner_loop.rs:1116-1257 | what each of the four consumers takes next from a snapshot is unread and wanted by it, and nothing it should have taken comes before |
| `Mailbox.ClassesAreDisjoint` | coco-rs/coordinator/src/runner_loop.rs:1161-1257 | no message is wanted by two different consumers |
| `Mailbox.ConsumedExactlyOnce` | coco-rs/coordinator/src/runner_loop.rs:1116-1150 | over every interleaving of appends, polls and takes, with failing reads and marks: a message is consumed once per failed mark plus once if it is read, only by the one consumer it is meant for, and twice only if a mark failed |
| `Mailbox.TakersGetTheirOwn` | coco-rs/coordinator/src/runner_loop.rs:1116-1257 | over every run the drain takes only the lead's mode and rule messages, the plan waiter only the lead's replies to its own request, the permission bridge only replies to its own request, the scan only prompts; and every read message was taken |
| `Mailbox.PromptsTakenInOrder` | coco-rs/coordinator/src/runner_loop.rs:1161-1197 | over every run prompts of one class are taken in inbox order, strictly so once the earlier mark succeeded |
| `Mailbox.HigherClassTakenFirst` | coco-rs/coordinator/src/runner_loop.rs:1161-1197 | over every run a prompt is taken only after every higher-class prompt its poll saw was taken and marked |
| `Mailbox.ApplyAllRules` | coco-rs/coordinator/src/runner_loop.rs:1208-1257 | one drain of an inbox yields the initial rules followed by every lead update in order |
| `Mailbox.ApplyAllMode` | coco-rs/coordinator/src/runner_loop.rs:1208-1257 | one drain of an inbox yields the mode the lead asked for last, or the initial one |
| `MailboxControl.ControlIsLog` | coco-rs/coordinator/src/runner_loop.rs:1208-1257 | for every run, failing reads and marks included, the control state is the effects of the takes in the order they happened |
| `MailboxControl.RulesAreTaken` | coco-rs/coordinator/src/runner_loop.rs:1237-1253 | for every run the rules are the initial ones followed by those of the messages the drain took, in the order it took them |
| `MailboxControl.ModeIsLastSet` | coco-rs/coordinator/src/runner_loop.rs:1225-1236 | for every run the mode is the one set last, by a request the drain took or by an approved plan |
| `MailboxControl.RulesOnceIff` | coco-rs/coordinator/src/runner_loop.rs:1237-1253 | once no control message is unread the rules are the initial ones followed by every lead update in inbox order, each once, if and only if no mark of a non-empty update failed |
| `MailboxControl.ModeAskedLastIff` | coco-rs/coordinator/src/runner_loop.rs:1225-1236 | once no control message is unread and if no plan was approved the mode is the lead's last request, unless a request whose mark failed was applied again after the last one, last of all and for another mode; and only then |
| `MailboxControl.ScheduleIndependence` | coco-rs/coordinator/src/runner_loop.rs:1208-1257 | however drains, appends and the other consumers interleaved and whatever reads and marks failed, once no control message is unread (and absent an approval) the control state is that of a single drain at the end if and only if both conditions hold |
| `MailboxControl.EndingInADrainIsEnough` | coco-rs/coordinator/src/runner_loop.rs:1062-1089 | any schedule followed by one complete drain pass leaves no control message unread, and reaches that state under exactly the same conditions |
| `MailboxControl.FailedMarkAppliesRulesTwice` | coco-rs/coordinator/src/runner_loop.rs:1248-1252 | a concrete run in which a failed mark applies an update twice although everything is read |
| `MailboxControl.FailedMarkBringsBackTheOldMode` | coco-rs/coordinator/src/runner_loop.rs:1231-1235 | a concrete run in which a failed mark leaves the first of two requested modes although everything is read |
| `MailboxStore.SelectionIgnoresDrain` | coco-rs/coordinator/src/runner_loop.rs:1062-1089 | scanning the snapshot taken before the drain picks what scanning the drained inbox would |
| `MailboxStore.DrainMeaning` | coco-rs/coordinator/src/runner_loop.rs:1208-1257 | a read and takes to the end of the pass, with nothing in between, mark every control message and apply those that were unread, once and in order |
| `MailboxStore.PollOnceMeaning` | coco-rs/coordinator/src/runner_loop.rs:1116-1150 | a read and a take of any other consumer, with nothing in between, mark the message it picks and nothing else |
| `MailboxStore.TeammateInbox.WriteToMailbox` | coco-rs/coordinator/src/mailbox/io.rs:77-96 | appends one unread message: the append step |
| `MailboxStore.TeammateInbox.MarkMessageAsReadByIndex` | coco-rs/coordinator/src/mailbox/io.rs:124-142 | sets one read flag, or nothing for an index past the end |
| `MailboxStore.TeammateInbox.DrainControlMessages` | coco-rs/coordinator/src/runner_loop.rs:1208-1257 | an undisturbed drain marks exactly the mode and rule messages of the lead, appends the rules of the unread ones in order, and leaves the mode the last unread one asked for |
| `MailboxStore.TeammateInbox.ScanNextPrompt` | coco-rs/coordinator/src/runner_loop.rs:1116-1150 | marks the prompt the caller's snapshot selects |
| `MailboxStore.TeammateInbox.PollForPrompt` | coco-rs/coordinator/src/runner_loop.rs:1062-1089 | one pass: shutdown first, then the lead, then anyone, each oldest first, chosen as if from the drained inbox; nothing exactly when nothing suits; drain and mark are all that changes |
| `MailboxStore.TeammateInbox.PollPlanApproval` | coco-rs/coordinator/src/runner_loop_wait.rs:42-71 | takes the first unread lead reply with the awaited request id, returns its content, marks only it; nothing when there is none |
| `MailboxStore.TeammateInbox.PollPermission` | coco-rs/coordinator/src/runner_loop_mailbox_permission.rs:70-107 | takes the first unread permission reply with the request id, whoever sent it, and marks only it |
| `TaskList.TaskListStore.ClaimTask` | coco-rs/tasks/src/task_list.rs:668-729 | claims under the list lock; every outcome is given by an equivalence on the old list: missing, completed, somebody else's, blocked by an unfinished task, claimant holding another unfinished one, or success with only the owner changed |
| `TaskList.TaskListStore.UpdateStatus` | coco-rs/tasks/src/task_list.rs:509-564 | changes the status of one existing task and nothing else |
| `TaskList.TaskListStore.ClaimFirstAvailableTask` | coco-rs/coordinator/src/runner_loop.rs:1261-1319 | undisturbed, hands out the lowest available task and starts it, and nothing only when no available task can be claimed |
| `TaskList.StuckMeansCycle` | coco-rs/coordinator/src/runner_loop.rs:1273-1288 | if open tasks remain, nobody works and none is available, some open tasks block each other in a ring |
| `TaskList.ScanFindsWork` | coco-rs/coordinator/src/runner_loop.rs:1273-1288 | with acyclic blockers and nobody working, the scan finds a task while any is unfinished |
| `TaskList.CycleSurvives` | coco-rs/coordinator/src/runner_loop.rs:1273-1288 | no sequence of claim-and-complete rounds ever finishes a member of a ring |
| `TaskList.FinishesIffAcyclic` | coco-rs/coordinator/src/runner_loop.rs:1261-1319 | repeated claim-and-complete finishes the list if and only if the blockers are acyclic, and then in exactly one round per open task, whichever available task each round picks |
| `HandOut.EditLosesOwnerIffOvertaken` | coco-rs/tasks/src/task_list.rs:509-564 | writing back an edit loses the task's owner if and only if a claim changed the owner since the edit read the task |
| `HandOut.HandedOutTwiceIff` | coco-rs/tasks/src/task_list.rs:509-791 | in every interleaving of any number of scans, claims and edits, owner assignments and releases included, a task is handed out twice if and only if a claim of it, later an edit that changes its owner, and later a claim of it are written |
| `HandOut.LateEditHandsOutTwiceIff` | coco-rs/tasks/src/task_list.rs:509-729 | where only claims assign owners those edits are exactly the ones a claim has overtaken |
| `HandOut.HandedOutAtMostOnce` | coco-rs/tasks/src/task_list.rs:668-729 | so while no edit changes an owner no task is handed out twice |
| `HandOut.OverlappingEditHandsOutTwice` | coco-rs/tasks/src/task_list.rs:272-297 | a concrete run in which a title edit overlaps a claim and the same task goes to two teammates |
| `HandOut.UndisturbedScan` | coco-rs/coordinator/src/runner_loop.rs:1261-1319 | scan, claim and status change as steps with nothing in between leave the list as the teammate's own loop does: the task owned and in progress, or unchanged if it cannot be claimed |
| `HandOut.EntriesAreReadOnce` | coco-rs/tasks/src/task_list.rs:500-506 | over every run a scan keeps each entry as it was when read, until the scan ends or is begun again |
| `HandOut.UndisturbedEdit` | coco-rs/tasks/src/task_list.rs:509-600 | an edit with nothing in between changes its task field by field as asked and nothing else; a blocker that does not exist is not added |
| `HandOut.CreatedTask` | coco-rs/tasks/src/task_list.rs:384-415 | a new task gets an unused id and is pending, unowned and unblocked; the others stay |
| `HandOutOrder.HandOutOrderRespectsBlockers` | coco-rs/coordinator/src/runner_loop.rs:1261-1319 | however edits and claims overlap, if only claims assign owners and nothing completed is reopened, the hand-out order is a linear extension of the blockers the claims read, each of which is completed for good, and nobody ever holds two unfinished tasks |
| `HandOutOrder.HandedOutBlindIff` | coco-rs/tasks/src/task_list.rs:568-729 | when a claim is written the task's file lists an open blocker if and only if an added, still open blocker was written since the claim read it, and is completed if and only if a completion was |
| `HandOutOrder.HandOutTakesBack` | coco-rs/tasks/src/task_list.rs:668-729 | the claim's write erases such edits: the file is what the claim read, open and with no open blocker, plus the owner |
| `HandOutOrder.BlockerAddedDuringClaimIsIgnored` | coco-rs/tasks/src/task_list.rs:568-600 | a concrete run in which a task with an open blocker in its file is handed out and the blocker erased |
| `HandOutOrder.CompletionDuringClaimIsReverted` | coco-rs/tasks/src/task_list.rs:509-564 | a concrete run in which a completion written during a claim is taken back |
| `TeammateRun.AwaitPlanMeaning` | coco-rs/coordinator/src/runner_loop_wait.rs:31-75 | the wait goes on exactly while no poll is cancelled or finds a reply, and the first poll that does decides: a cancel before anything in its inbox, else the first unread lead reply carrying the awaited id |
| `TeammateRun.AwaitPromptMeaning` | coco-rs/coordinator/src/runner_loop.rs:1054-1089 | the wait goes on exactly while no poll is cancelled or finds a prompt or a task, and the first poll that does decides: a cancel first, then the best unread prompt of its inbox, and a task only when it holds no unread prompt |
| `TeammateRun.PlanGate` | coco-rs/coordinator/src/runner_loop.rs:655-720 | over whole runs: with plan mode required nothing is reported idle, taken or claimed and only the initial prompt or feedback is asked before an approved lead reply to that turn's own request; once approved no plan is submitted again |
| `TeammateRun.RunEnding` | coco-rs/coordinator/src/runner_loop.rs:400-404 | a run ends only on a cancel flag seen set or a failed query, last in its trace, with an error exactly in the second case |
| `TeammateRun.RunAccounting` | coco-rs/coordinator/src/runner_loop.rs:520-559 | reported turns and tokens are the sums over the queries that returned, and the ring is the last five tool calls of the run |
| `TeammateRun.IdleAlwaysReported` | coco-rs/coordinator/src/runner_loop.rs:723-800 | the idle flag is down at every loop head, so it never suppresses a report: every message or task is taken directly after one |
| `TeammateRun.EveryPromptHasASource` | coco-rs/coordinator/src/runner_loop.rs:803-876 | every prompt asked is explained by the event just before it: start, rejection feedback, taken message, taken task, or idle hook |
| `TeammateTurns.EveryEventIsCalledFor` | coco-rs/coordinator/src/runner_loop.rs:399-876 | for every run and every turn reached, the turn adds exactly the events its observations call for, in their order, and leaves the status and the next prompt they call for; stated on the turn's inputs, not on the loop's functions |
| `TeammateTurns.CancelledIff` | coco-rs/coordinator/src/runner_loop.rs:400-404 | a run ends in a seen cancel if and only if some turn it reaches observes one (at its head, before the gate, while a plan or a prompt is awaited), and in a failed query if and only if a query it makes fails |
| `TeammateRun.PushActivities` | coco-rs/coordinator/src/runner_loop.rs:529-558 | the ring after pushing is the last five of old ring and new calls |
| `TeammateRun.WaitForPlanApproval` | coco-rs/coordinator/src/runner_loop_wait.rs:31-75 | the polling loop computes the outcome AwaitPlan describes |
| `TeammateRun.WaitForNextPromptOrShutdown` | coco-rs/coordinator/src/runner_loop.rs:1054-1089 | the polling loop computes the outcome AwaitPrompt describes |
| `TeammateRun.IdleAndWait` | coco-rs/coordinator/src/runner_loop.rs:723-876 | the idle transition and wait make the step GoIdle describes |
| `TeammateRun.AwaitApproval` | coco-rs/coordinator/src/runner_loop.rs:655-720 | the gate makes the step PassGate describes |
| `TeammateRun.RunIteration` | coco-rs/coordinator/src/runner_loop.rs:399-876 | one iteration of the loop makes the step TakeTurn describes |
| `TeammateRun.RunInProcessTeammate` | coco-rs/coordinator/src/runner_loop.rs:325-968 | the loop computes the run all results above are about |
| `TeammateNames.SanitizedIsClean` | coco-rs/coordinator/src/types.rs:354-365 | sanitizing is idempotent and removes every @ |
| `TeammateNames.SanitizeMeaning` | coco-rs/coordinator/src/types.rs:354-365 | exactly the clean names stay as they are; capitals become the same letter of the alphabet and every other ASCII character a hyphen |
| `TeammateNames.FallbackNeedsAFullTeam` | coco-rs/coordinator/src/teammate.rs:181-198 | if the random fallback is reached, at least 99 names are taken |
| `TeammateNames.UniqueNameIsNewIff` | coco-rs/coordinator/src/teammate.rs:181-198 | the generated name is new if and only if some candidate is free or the random fragment is |
| `TeammateNames.DecimalReadsBack` | coco-rs/coordinator/src/teammate.rs:181-198 | a suffix's digits read back as its number, without a leading zero |
| `TeammateNames.GenerateUniqueTeammateName` | coco-rs/coordinator/src/teammate.rs:181-198 | the base name when free, else the least suffix from 2 to 99 that is, else the random fragment; new on every team of fewer than 99 |
| `Roster.NamesStayUnique` | coco-rs/coordinator/src/roster_store.rs:151-352 | under any run of store operations, one after the other, on any teams with any failures, names stay pairwise distinct and every agent id is name@team, as long as reservations spell the team as its file does and the team has fewer than 99 members or a name left |
| `Roster.ReserveKeepsGoodIff` | coco-rs/coordinator/src/roster_store.rs:151-197 | a reservation keeps that so if and only if it spells the team as its file does and one of the candidate names or the random fallback is free |
| `Roster.MirrorIsTheDisk` | coco-rs/coordinator/src/roster_store.rs:98-352 | after any run of leader operations on the active team, one after the other, with any failures, the mirror's file equals the file on disk; teammates' mode writes make only modes differ |
| `Roster.ReserveMirrorsIff` | coco-rs/coordinator/src/roster_store.rs:151-197 | a reservation keeps mirror and disk equal if and only if it fails or is for the active team: the store does not check |
| `Roster.EditMirrorsIff` | coco-rs/coordinator/src/roster_store.rs:199-318 | an edit of one member does if and only if it fails, is for the active team, or finds nobody |
| `Roster.ModesMirrorIff` | coco-rs/coordinator/src/roster_store.rs:318-352 | the batch does if and only if it fails, is for the active team, or changes nobody |
| `Roster.RollbackMirrorsIff` | coco-rs/coordinator/src/roster_store.rs:247-254 | a rollback does if and only if it fails, is for the active team, or the mirror has nobody with that id; it edits the mirror even when the team has no file |
| `Roster.TeammateModeMirrorsIff` | coco-rs/coordinator/src/team_file.rs:72-84 | a teammate's own mode write does if and only if it fails, is for another team, finds nobody, or changes nothing |
| `Roster.BatchIsOneByOne` | coco-rs/coordinator/src/roster_store.rs:311-352 | the batch mode update leaves the disk as the single updates in order would (last one of a name wins) and writes once if and only if the disk changes, else not at all |
| `Roster.RollbackRemovesOnly` | coco-rs/coordinator/src/roster_store.rs:247-254 | a rollback takes exactly the one member out of its team's file and leaves the rest in order |
| `Roster.RollbackUndoesReserve` | coco-rs/coordinator/src/roster_store.rs:151-254 | reserve then rollback restores disk and mirror |
| `RosterEffects.EditLeaves` | coco-rs/coordinator/src/roster_store.rs:199-308 | a commit, colour, active or mode edit sets exactly its fields of the first match, in its place, on disk and in the mirror; every other field, member, file and team property is as before |
| `RosterEffects.EditOfNobody` | coco-rs/coordinator/src/roster_store.rs:199-308 | an edit that matches nobody changes nothing |
| `RosterEffects.TeammateModeLeaves` | coco-rs/coordinator/src/team_file.rs:72-84 | a teammate's own mode write changes that member's mode on disk and never the mirror |
| `RosterEffects.ModesLeave` | coco-rs/coordinator/src/roster_store.rs:318-352 | a batch gives every named member the mode asked for last and nobody else anything; one write exactly when something changes |
| `RosterEffects.ReserveLeaves` | coco-rs/coordinator/src/roster_store.rs:151-197 | a reservation appends one member, whose every field is given by the request, and nothing else |
| `RosterEffects.RollbackLeaves` | coco-rs/coordinator/src/roster_store.rs:247-254 | a rollback keeps everybody else in order, in file and mirror; a removal that cannot be written leaves both |
| `RosterEffects.InitializeLeaves` | coco-rs/coordinator/src/roster_store.rs:98-149 | initialization keeps an existing file, or creates one whose every field is given, and activates it unless routing fails |
| `RosterEffects.FailuresLeave` | coco-rs/coordinator/src/roster_store.rs:98-352 | a failed read changes nothing and a failed write leaves the disk alone |
| `RosterRaces.PlanIsApply` | coco-rs/coordinator/src/roster_store.rs:98-352 | what an operation makes of the file it read, carried out in one go, is the single step of the store |
| `RosterRaces.ThreeStepsAreOne` | coco-rs/coordinator/src/roster_store.rs:98-352 | read, write and mirror update with nothing in between are that step, failures included |
| `RosterRaces.TimelyRunsAreSerial` | coco-rs/coordinator/src/team_file.rs:44-84 | however any number of callers interleave reads, writes and mirror updates, if no write is overtaken, no team is made active twice and mirror updates follow the writes, the disk is always what the written calls would have made of it one after the other, and so is the whole roster once the mirror has caught up |
| `RosterRaces.NamesStayUniqueInTimelyRuns` | coco-rs/coordinator/src/roster_store.rs:151-352 | so names stay unique and ids follow them in every such run |
| `RosterRaces.MirrorIsTheDiskInTimelyRuns` | coco-rs/coordinator/src/roster_store.rs:98-352 | and the mirror is the disk whenever it has caught up |
| `RosterRaces.OvertakenWriteIff` | coco-rs/coordinator/src/team_file.rs:44-101 | the first overtaken write of a run erases an id (its own aside) if and only if that was reserved since its read and not rolled back again, and brings one back if and only if it was rolled back since and not reserved again |
| `RosterRaces.ReservedTwiceIff` | coco-rs/coordinator/src/roster_store.rs:151-197 | somebody has the id of a reservation under way if and only if the same name was reserved since its read and not rolled back |
| `RosterRaces.TeammateWriteErasesReservation` | coco-rs/coordinator/src/team_file.rs:72-84 | for every reservation on the active team: a teammate's mode write that read the file before it erases the new member from disk while the mirror keeps it |
| `RosterRaces.OverlappingReservationsShareAName` | coco-rs/coordinator/src/roster_store.rs:151-197 | two overlapping reservations of one name both succeed with one name and id, and only one member is stored |
| `RosterRaces.SwappedMirrorUpdatesDiffer` | coco-rs/coordinator/src/roster_store.rs:222-245 | two colours given one after the other but mirrored the other way round leave the first in the mirror and the second on disk |
| `RosterStore.FindMember` | coco-rs/coordinator/src/types.rs:267-271 | the search loop returns the first match |
| `RosterStore.TeamManager.UpsertMember` | coco-rs/coordinator/src/types.rs:264-275 | replaces the member with that id or appends it |
| `RosterStore.TeamManager.RemoveMember` | coco-rs/coordinator/src/types.rs:289-295 | removes every member with that id and says whether there was one |
| `RosterStore.TeamRosterStore.ReadTeamFile` | coco-rs/coordinator/src/team_file.rs:44-52 | the file of the sanitized team name, none, or an error |
| `RosterStore.TeamRosterStore.WriteTeamFile` | coco-rs/coordinator/src/team_file.rs:55-63 | replaces one file and counts the write, or fails and changes nothing |
| `RosterStore.TeamRosterStore.InitializeSessionTeam` | coco-rs/coordinator/src/roster_store.rs:98-149 | no-op when a team is active, reuses an existing file untouched, else writes the leader-only file; each error and outcome exactly when due |
| `RosterStore.TeamRosterStore.ReserveMember` | coco-rs/coordinator/src/roster_store.rs:151-197 | makes the reservation step; errors for failed read, missing team, failed write, in that order |
| `RosterStore.TeamRosterStore.CommitMember` | coco-rs/coordinator/src/roster_store.rs:199-219 | makes the commit step; the returned member is the active one with that id |
| `RosterStore.TeamRosterStore.SetMemberColor` | coco-rs/coordinator/src/roster_store.rs:221-245 | missing team is an error, a missing member changes nothing |
| `RosterStore.TeamRosterStore.EditByMemberName` | coco-rs/coordinator/src/roster_store.rs:256-308 | active and mode updates of the first member of that name, on disk and in the mirror, as RosterEffects.EditLeaves says; missing team or member is fine, an error exactly on a failed read or a failed write of a found member |
| `RosterStore.TeamRosterStore.SetMemberModes` | coco-rs/coordinator/src/roster_store.rs:318-352 | makes the batch step; an error changes nothing |
| `RosterStore.UpdateTable` | coco-rs/coordinator/src/roster_store.rs:329-332 | the update table holds for each name the last mode asked |
| `RosterStore.ApplyModes` | coco-rs/coordinator/src/roster_store.rs:333-341 | one pass edits exactly the members whose mode changes and collects them in order |
| `RosterStore.TeamRosterStore.RemoveMemberByAgentId` | coco-rs/coordinator/src/team_file.rs:87-100 | rewrites the file only when a member is removed |
| `RosterStore.TeamRosterStore.RollbackMember` | coco-rs/coordinator/src/roster_store.rs:247-254 | makes the rollback step; reports whether the file had the id; an error changes nothing |
| `RosterStore.TeamRosterStore.SetMemberModeInTeamFile` | coco-rs/coordinator/src/team_file.rs:72-84 | writes the mode to disk and leaves the mirror alone |
| `Runner.RunnerStaysSound` | coco-rs/coordinator/src/runner.rs:186-278 | over any interleaving at most max(1, max_agents) agents are tracked and no registration is ever started twice |
| `Runner.OfferedIsPlaced` | coco-rs/coordinator/src/runner.rs:369-424 | to the end of any run an offered handle is attached to the registration its agent had at the offer, and aborted exactly if there was none or it had been started |
| `Runner.AttachedForGood` | coco-rs/coordinator/src/runner.rs:369-424 | an attached handle stays with its registration and no other handle ever joins it |
| `Runner.SettledForGood` | coco-rs/coordinator/src/runner.rs:284-350 | a handle aborted, dropped, or taken by one observer stays so: no second wait or collect ever gets its result |
| `Runner.HeldIffUntouched` | coco-rs/coordinator/src/runner.rs:284-350 | over every run a held handle stays held, with its agent and registration, if and only if no event waits for, collects or cancels that agent or cancels all |
| `Runner.FirstTouchDecides` | coco-rs/coordinator/src/runner.rs:284-350 | the first such event decides for good who gets the handle: a wait its waiter, a collect its collector, a cancel nobody |
| `Runner.InProcessAgentRunner.RegisterAgent` | coco-rs/coordinator/src/runner.rs:213-278 | registers exactly when there is room and the id is free |
| `Runner.InProcessAgentRunner.StartAgent` | coco-rs/coordinator/src/runner.rs:369-424 | attaches the handle exactly when the agent is registered and not started, else aborts it |
| `Runner.InProcessAgentRunner.WaitForCompletion` | coco-rs/coordinator/src/runner.rs:284-304 | takes the receiver if there is one; nobody can wait again |
| `Runner.InProcessAgentRunner.CollectResult` | coco-rs/coordinator/src/runner.rs:325-350 | removes the entry and takes its receiver if there is one |
| `Runner.InProcessAgentRunner.CancelAgent` | coco-rs/coordinator/src/runner.rs:310-319 | drops this agent and its handle and leaves every other agent and handle alone; true exactly when it was there |
| `Runner.InProcessAgentRunner.CancelAllAgents` | coco-rs/coordinator/src/runner.rs:457-468 | empties the table and drops every receiver |
| `BoundedRead.OneByteMoreIsEnough` | coco-rs/hooks/src/lib.rs:1438-1455 | cutting a stream at cap + 1 bytes loses nothing the bounded text depends on, and is longer than the cap exactly when the stream is |
| `BoundedRead.CappedLineIsUnique` | coco-rs/hooks/src/lib.rs:1473-1499 | the capped first line of a stream is unique |
| `BoundedRead.Reader.ReadToEnd` | coco-rs/hooks/src/lib.rs:1324-1331 | reads exactly the next min(length, limit) bytes for every chunking, failing exactly if the stream breaks before the limit |
| `BoundedRead.Reader.Drain` | coco-rs/hooks/src/lib.rs:1333-1334 | discards the rest of the stream |
| `BoundedRead.Reader.ReadFirstLineCapped` | coco-rs/hooks/src/lib.rs:1473-1499 | for every chunking returns the first line with its newline cut at cap + 1, consumes exactly that, and fails exactly if the stream breaks before a newline and within the cap |
| `BoundedRead.Reader.FinishCapture` | coco-rs/hooks/src/lib.rs:1324-1335 | the rest of a stream whose beginning was read gives the bounded text of the whole, or an error exactly when it breaks within the cap |
| `BoundedRead.Reader.CaptureStdout` | coco-rs/hooks/src/lib.rs:1290-1335 | the bounded text of the whole stream, or a hand-over exactly when the first line asks for it, or an error exactly when the stream breaks within the cap before either; never more than one byte past the cap is held |
| `BoundedRead.BoundHookOutput` | coco-rs/hooks/src/lib.rs:1441-1455 | bounded text of what was read: marker exactly when longer than the cap |
| `BoundedRead.ReadBoundedOpt` | coco-rs/hooks/src/lib.rs:1457-1471 | bounded text of the whole stream for every chunking, stream drained, empty text without a pipe |
| `BoundedRead.ReadChunks` | coco-rs/hooks/src/lib.rs:1501-1518 | the chunk loop keeps exactly the first min(length, cap + 1) bytes for every chunking |
| `BoundedRead.ReadBoundedHttpBody` | coco-rs/hooks/src/lib.rs:1501-1520 | bounded text of the whole body for every chunking, an error exactly if the body breaks within the cap |
| `Hooks.KeyMeaning` | coco-rs/hooks/src/lib.rs:2044-2059 | two hooks whose conditions hold no NUL share a dedup key if and only if they have the same handler identity and the same condition text, whatever their event, matcher, scope, priority or once flag |
| `Hooks.KeyIsAloneIff` | coco-rs/hooks/src/lib.rs:2044-2059 | a hook shares its key with no hook that does something else if and only if neither its handler's text nor its condition holds a NUL |
| `Hooks.NulMakesTwoHooksOne` | coco-rs/hooks/src/lib.rs:2044-2059 | two concrete different hooks with one key |
| `Hooks.StableSortIsStable` | coco-rs/hooks/src/lib.rs:620-625 | sorting orders by scope descending then priority ascending and moves nothing within a class |
| `Hooks.StableSortIsUnique` | coco-rs/hooks/src/lib.rs:620-625 | no other sequence is so ordered and keeps each class in place |
| `Hooks.OrderedIffInRunOrder` | coco-rs/common/types/src/hook.rs:77-93 | a list is in execution order exactly when policy hooks come first, then session, local, project, user, plugin and builtin ones, and within a scope smaller priorities first |
| `HookRegistry.SeenStaysCovered` | coco-rs/hooks/src/lib.rs:266-402 | over any run the seen keys are a subset of the keys of the registered hooks |
| `HookRegistry.CleanKeptIff` | coco-rs/hooks/src/lib.rs:266-335 | an operation keeps keys distinct and seen equal to them if and only if it is not an unchecked registration |
| `HookRegistry.CheckedRunsStayClean` | coco-rs/hooks/src/lib.rs:266-402 | over any run without unchecked registrations keys stay distinct and seen exactly the registered ones |
| `HookRegistry.ReloadCleans` | coco-rs/hooks/src/lib.rs:357-402 | a reload leaves distinct keys, namely those of the settings and of the old session hooks |
| `HookRegistry.ReloadMeaning` | coco-rs/hooks/src/lib.rs:357-402 | a reload is the first occurrence of each key in the settings followed by the old session hooks; a failing source changes nothing; firings and agent hooks are kept |
| `HookRegistry.ReloadIsIdempotent` | coco-rs/hooks/src/lib.rs:357-402 | reloading the same settings again changes nothing |
| `HookRegistry.LoadFailsIff` | coco-rs/hooks/src/lib.rs:376-384 | loading fails if and only if some source does, with the first failing source's error |
| `HookRegistry.LoadInTurn` | coco-rs/hooks/src/lib.rs:376-384 | sources load one after the other, their hooks concatenated; after a failing source nothing matters |
| `HookRegistry.FoundIff` | coco-rs/hooks/src/lib.rs:573-627 | a query finds exactly the hooks of its event that take every value, any value present for a wildcard, or a value their pattern accepts, and that are registered and not used up or held by a live agent |
| `HookRegistry.FoundInOrder` | coco-rs/hooks/src/lib.rs:586-625 | within a scope and priority a query returns the registered hooks in registration order and then the agents' hooks, each list in its own order |
| `HookRegistry.FiredIff` | coco-rs/hooks/src/lib.rs:681-687 | over every run a key counts as fired if and only if it did before or a once-hook with it was marked |
| `HookRegistry.LastNamingDecides` | coco-rs/hooks/src/lib.rs:413-443 | over every run an agent's list is what the last registration or clearing that names it says, its stop hooks turned into subagent-stop hooks for agents, whatever happens to other agents |
| `HookRegistry.FiredIsFoundIff` | coco-rs/hooks/src/lib.rs:586-618 | after a once-hook fired and any further run, reloads included, a once-hook with its key is found if and only if a live agent holds it |
| `HookRegistry.AgentHookFiresAgain` | coco-rs/hooks/src/lib.rs:601-618 | a concrete run in which an agent's once-hook is found after it fired |
| `HookRegistry.AgentsNeverStop` | coco-rs/hooks/src/lib.rs:413-434 | over any run of agent registrations no agent list ever holds a Stop hook |
| `HookRaces.StuckIffDeadlocked` | coco-rs/hooks/src/lib.rs:276-335 | no step can move list, keys or locks on if and only if a checked registration and a removal each hold the lock the other waits for |
| `HookRaces.DeadlockIsForGood` | coco-rs/hooks/src/lib.rs:276-335 | and then none ever does, whatever comes |
| `HookRaces.RegistrationAndRemovalCanDeadlock` | coco-rs/hooks/src/lib.rs:276-335 | a checked registration of a new key and a removal that overlap get there, whichever begins first |
| `HookRaces.AloneRunsAreSerial` | coco-rs/hooks/src/lib.rs:276-402 | however callers interleave, if reloads are alone the registry at rest is what the completed operations would have made of it one after the other |
| `HookRaces.AloneRunsStayCovered` | coco-rs/hooks/src/lib.rs:276-402 | so seen keys stay within the registered ones, and checked runs keep keys distinct |
| `HookRaces.RemovalDuringReloadLeavesAKey` | coco-rs/hooks/src/lib.rs:392-400 | for every registry and hook: a removal between the two swaps of a reload leaves the key of a removed hook behind as seen, so a checked registration is refused |
| `HookRaces.RegistrationDuringReloadDuplicates` | coco-rs/hooks/src/lib.rs:392-400 | a checked registration between the swaps is accepted although the reload brought the hook |
| `HookRaces.RegistrationDuringReloadIsLost` | coco-rs/hooks/src/lib.rs:361-395 | a session hook registered between a reload's read and its swap is gone |
| `Dedup.DedupKeys` | coco-rs/hooks/src/lib.rs:376-391 | deduplication keeps one element per key not seen before, and only those |
| `Dedup.DedupIsFirstOccurrences` | coco-rs/hooks/src/lib.rs:376-391 | what is kept is exactly the elements no earlier one shares a key with, in order |
| `Dedup.AddNew` | coco-rs/hooks/src/lib.rs:378-383 | the insertion loop computes that deduplication |
| `Dedup.Partition` | coco-rs/hooks/src/lib.rs:276-292 | the removal loop splits the list, in order, without loss |
| `HookRegistryStore.LoadSources` | coco-rs/hooks/src/lib.rs:376-384 | the loading loop deduplicates all sources in order and stops at the first failing one |
| `HookRegistryStore.HookRegistry.AddHook` | coco-rs/hooks/src/lib.rs:266-270 | appends without a check |
| `HookRegistryStore.HookRegistry.AddDeduped` | coco-rs/hooks/src/lib.rs:320-335 | appends exactly when the key is new |
| `HookRegistryStore.HookRegistry.RemoveMatchingHooks` | coco-rs/hooks/src/lib.rs:276-302 | removes and returns exactly the matching hooks and recomputes the seen keys |
| `HookRegistryStore.HookRegistry.ReloadFromRuntime` | coco-rs/hooks/src/lib.rs:357-402 | reloads all or nothing: fails exactly when a source does, with the first such error and everything unchanged; otherwise hooks and keys agree, fired keys and agents' lists stay |
| `HookRegistryStore.HookRegistry.AddForAgent` | coco-rs/hooks/src/lib.rs:413-434 | replaces the agent's list, with Stop rewritten for agents |
| `HookRegistryStore.HookRegistry.ClearAgentScope` | coco-rs/hooks/src/lib.rs:439-443 | removes the agent's list |
| `HookRegistryStore.HookRegistry.MarkOnceFired` | coco-rs/hooks/src/lib.rs:681-687 | records the key of a once-hook |
| `HookRegistryStore.HookRegistry.FindMatching` | coco-rs/hooks/src/lib.rs:573-627 | returns the stable sort of the applying hooks, in the scopes' run order, with exactly the members FoundIff says |
| `AsyncHooks.RunBalances` | coco-rs/hooks/src/async_registry.rs:80-196 | over any run each registration of an id is delivered, still undelivered, or was overwritten, counted exactly |
| `AsyncHooks.EveryHookDeliveredOnceIff` | coco-rs/hooks/src/async_registry.rs:80-196 | after a run that ends in finalize nothing is left undelivered, and an id was delivered as often as it was registered if and only if it was never registered again before its delivery |
| `AsyncHooks.RegisteredTwiceLosesOne` | coco-rs/hooks/src/async_registry.rs:80-101 | a concrete run that delivers an id less often than it was registered |
| `AsyncHooks.GatherMeaning` | coco-rs/hooks/src/async_registry.rs:128-157 | a visit answers exactly the undelivered ready entries, each with its current output, code and flags |
| `AsyncHooks.CollectAnswers` | coco-rs/hooks/src/async_registry.rs:128-157 | a collection answers exactly the undelivered hooks that completed or are overdue, once each, with their recorded name, event, output and exit code (-1 without one), timed out exactly when overdue |
| `AsyncHooks.LastAnswers` | coco-rs/hooks/src/async_registry.rs:175-196 | the final visit answers every undelivered hook once, timed out exactly when it has no exit code |
| `AsyncHooks.AnswerTellsTheRun` | coco-rs/hooks/src/async_registry.rs:80-157 | over every run since its registration, a hook is answered exactly when a completion came or its limit passed, with the last output, exit code and rewake mark the run's events gave it |
| `AsyncHooks.NothingTwice` | coco-rs/hooks/src/async_registry.rs:128-157 | a second visit has nothing to deliver |
| `AsyncHooks.VisitTable` | coco-rs/hooks/src/async_registry.rs:133-156 | the loop marks exactly the ready entries and answers each once |
| `AsyncHooks.AsyncHookRegistry.RegisterHook` | coco-rs/hooks/src/async_registry.rs:80-101 | inserts a fresh entry, replacing any old one |
| `AsyncHooks.AsyncHookRegistry.MarkRewakeOn` | coco-rs/hooks/src/async_registry.rs:104-108 | sets the rewake flag of an existing entry |
| `AsyncHooks.AsyncHookRegistry.UpdateOutputOf` | coco-rs/hooks/src/async_registry.rs:111-116 | replaces the output of an existing entry |
| `AsyncHooks.AsyncHookRegistry.CompleteHook` | coco-rs/hooks/src/async_registry.rs:119-123 | records the exit code of an existing entry |
| `AsyncHooks.AsyncHookRegistry.CollectResponses` | coco-rs/hooks/src/async_registry.rs:128-157 | returns exactly the answers CollectAnswers describes and marks exactly those delivered |
| `AsyncHooks.AsyncHookRegistry.FinalizeAll` | coco-rs/hooks/src/async_registry.rs:175-196 | returns exactly the answers LastAnswers describes; everything pending is then delivered |
| `AsyncHooks.AsyncHookRegistry.CleanupDelivered` | coco-rs/hooks/src/async_registry.rs:170-172 | keeps exactly the undelivered entries |
| `AsyncHooks.SyncHookEventBuffer.Push` | coco-rs/hooks/src/sync_hook_buffer.rs:33-35 | appends; everything drained followed by everything queued is everything pushed |
| `AsyncHooks.SyncHookEventBuffer.Extend` | coco-rs/hooks/src/sync_hook_buffer.rs:38-43 | appends in order, keeping that law |
| `AsyncHooks.SyncHookEventBuffer.Drain` | coco-rs/hooks/src/sync_hook_buffer.rs:47-50 | hands over the whole queue; all drains concatenated are all pushes |
| `AsyncHooks.DrainCombined` | coco-rs/hooks/src/reminder_source.rs:58-68 | background results first, each told by its output and, under its hook's name, its error output, then the turn's own events, each handed over for good |
| `ReplBridge.EveryMessageOnce` | coco-rs/bridge/src/repl.rs:297-342 | over any interleaving of split sends and drains, state changes and closing, every message sent is in exactly one of sending, buffer, a drain, outgoing, dropped, refused |
| `ReplBridge.ClosedForGood` | coco-rs/bridge/src/repl.rs:297-342 | once the channel is closed nothing goes out any more, over every run |
| `ReplBridge.ClosedIff` | coco-rs/bridge/src/repl.rs:297-342 | the channel is closed if and only if a close was among the events, and until then nothing is refused |
| `ReplBridge.BufferStaysBounded` | coco-rs/bridge/src/repl.rs:203-314 | the buffer never exceeds 1000 messages |
| `ReplBridge.NewestAreKept` | coco-rs/bridge/src/repl.rs:297-342 | over any interleaving the buffer is the newest 1000 of everything buffered since the latest drain began, and exactly the older ones of each such stretch were dropped, oldest first |
| `ReplBridge.WholeSendInOrderIff` | coco-rs/bridge/src/repl.rs:297-314 | a send with nothing in between keeps messages in order if and only if it is buffered, meets a closed channel, or nothing is waiting to be drained |
| `ReplBridge.RunsAreNumbered` | coco-rs/bridge/src/repl.rs:297-342 | in every run the numbers given out are below the next one |
| `ReplBridge.CarefulIff` | coco-rs/bridge/src/repl.rs:297-342 | a step keeps what is out and what will go out in sending order if and only if it is careful: a direct send reaches the channel after everything sent earlier and before everything waiting, a buffered one reaches the buffer after everything sent earlier that is kept, no drain overtakes an earlier one, or the channel is closed |
| `ReplBridge.OrderIsKeptIff` | coco-rs/bridge/src/repl.rs:297-342 | over every interleaving of split sends and drains, state changes and closing the order holds throughout if and only if every step is careful |
| `ReplBridge.OrderIsKept` | coco-rs/bridge/src/repl.rs:297-342 | so in careful runs messages go out in the order they were sent |
| `ReplBridge.DrainAllMeaning` | coco-rs/bridge/src/repl.rs:319-342 | a drain as steps with nothing in between sends the whole buffer in order, or loses all of it to a closed channel |
| `ReplBridge.SendBeforeDrainOvertakes` | coco-rs/bridge/src/repl.rs:297-342 | a concrete run in which a send before the drain overtakes |
| `ReplBridge.LateSendIsStranded` | coco-rs/bridge/src/repl.rs:297-342 | a concrete run in which a send that read the state before the reconnect is stranded in the buffer after the drain and later goes out in the wrong order |
| `ReplBridge.Outbound.ChangeTo` | coco-rs/bridge/src/repl.rs:263-276 | makes the state-change step, which moves no message |
| `ReplBridge.Outbound.SendMessage` | coco-rs/bridge/src/repl.rs:297-316 | makes the two steps of a send: outgoing when connected, else the newest 1000; refused exactly on a closed channel while connected |
| `ReplBridge.Outbound.DrainBuffer` | coco-rs/bridge/src/repl.rs:319-342 | makes the steps of a whole drain: forwards the buffer in order, or loses it to a closed channel and says so |
| `Calendar.YearIsUnique` | coco-rs/journey/src/timeline.rs:154-168 | every day lies in exactly one year |
| `Calendar.YearStartIs` | coco-rs/journey/src/timeline.rs:154-168 | a year starts 365 days per year and one per leap year after the epoch, before it too |
| `Calendar.MonthLengths` | coco-rs/journey/src/timeline.rs:154-168 | the table of month starts is the running sum of the month lengths, leap years included |
| `Calendar.MonthIsUnique` | coco-rs/journey/src/timeline.rs:154-168 | every day lies in exactly one month of one year |
| `Calendar.FirstDays` | coco-rs/journey/src/timeline.rs:158-163 | the first days of month and year are in that month and year, and those of the first day are the same |
| `Calendar.FirstOfMonthAscends` | coco-rs/journey/src/timeline.rs:158-163 | later days have no earlier first of month |
| `Timeline.StartsFactor` | coco-rs/journey/src/timeline.rs:154-168 | month starts factor through day starts and year starts through month starts, for every timestamp |
| `Timeline.StartsAscend` | coco-rs/journey/src/timeline.rs:154-168 | a later timestamp never starts an earlier row, at every granularity and outside the calendar too |
| `Timeline.SameRowIff` | coco-rs/journey/src/timeline.rs:154-168 | two timestamps share a row if and only if they fall in the same day, month or year of the calendar or are equal, and the row starts at the first of its timestamps |
| `Timeline.RowsPartition` | coco-rs/journey/src/timeline.rs:100-142 | starts strictly ascend, no row is empty, and the counts add up to the nodes |
| `Timeline.RowsCountRight` | coco-rs/journey/src/timeline.rs:107-117 | a row's skills are its agent and user skills, its memories its memories, counted as sets of places |
| `Timeline.CoarserIsShorter` | coco-rs/journey/src/timeline.rs:44-65 | years are no more than months, months no more than days |
| `Timeline.ChoiceFits` | coco-rs/journey/src/timeline.rs:55-64 | up to 32 days the choice is days; beyond that it is the finest granularity that fits the row limit, or years when none does |
| `Timeline.LockedRowsAreFew` | coco-rs/journey/src/timeline.rs:51-56 | the rows of a locked timeline are its days, at most 33, plus exactly one per timestamp outside the calendar |
| `Timeline.LockedWithinCalendar` | coco-rs/journey/src/timeline.rs:51-56 | within the calendar a locked timeline has at most 33 rows |
| `Timeline.LockedOutsideCalendar` | coco-rs/journey/src/timeline.rs:154-157 | a concrete locked timeline outside the calendar with more than 33 rows |
| `Timeline.RowsBrighten` | coco-rs/journey/src/timeline.rs:119-131 | recency lies in [0.06, 1] and never falls along the rows; it rises if and only if the earlier row is less than 2^63 - 1 ms from the left edge |
| `Timeline.RecencyIsLinear` | coco-rs/journey/src/timeline.rs:119-131 | a row's recency lies on the straight line from 0.06 at the oldest to 1 at the newest edge, at the place of its newest node |
| `Timeline.ZeroSpanIsOneRow` | coco-rs/journey/src/timeline.rs:124-128 | a zero span gives one row of recency 1 |
| `Timeline.Group` | coco-rs/journey/src/timeline.rs:107-117 | the grouping loop computes counts and newest timestamp per start |
| `Timeline.BuildBuckets` | coco-rs/journey/src/timeline.rs:100-142 | computes the rows |
| `Timeline.Bucketize` | coco-rs/journey/src/timeline.rs:44-65 | computes the rows of the chosen granularity between the right edges, with partition, legibility and both row bounds |
| `Timeline.BusiestDay` | coco-rs/journey/src/timeline.rs:77-97 | the day with the most nodes, the earliest of several; none exactly for no nodes |
| `KeyChord.FoldMeaning` | coco-rs/keybindings/src/parser.rs:115-138 | token reading succeeds if and only if no token is empty and no two are base keys, and then yields exactly the modifiers and the base key present |
| `KeyChord.ComboParsesIff` | coco-rs/keybindings/src/parser.rs:103-150 | a combo is accepted if and only if it is not blank, no token is blank and exactly one token is a base key |
| `KeyChordMeaning.NamesRead` | coco-rs/keybindings/src/parser.rs:115-166 | modifiers by any of their names, in any case, order and number, then a key by any of its names or as itself, read as exactly those |
| `KeyChordMeaning.ComboErrorIs` | coco-rs/keybindings/src/parser.rs:103-150 | which error an unreadable combo gives: the first empty or second base token decides, a missing base only without either, and the error carries the trimmed combo |
| `KeyChordMeaning.ChordIs` | coco-rs/keybindings/src/parser.rs:84-100 | a chord is its words in turn, or the first unreadable word's error; blanks alone are empty, one space is the space key |
| `KeyChordMeaning.PrintsAs` | coco-rs/keybindings/src/display.rs:38-62 | a combo prints as ctrl, alt, shift, meta, cmd in this order, each only if held, and then its key |
| `KeyChordMeaning.OthersShowAsStored` | coco-rs/keybindings/src/display.rs:130-148 | every key outside the table of named keys prints as it is stored |
| `KeyChord.AcceptedIsCanonical` | coco-rs/keybindings/src/parser.rs:84-166 | every accepted chord has combos whose keys are plain, lower-case, normalized and no modifier |
| `KeyChord.ComboRoundTrip` | coco-rs/keybindings/src/display.rs:38-62 | a canonical combo printed and parsed comes back, arrows as glyphs |
| `KeyChord.CanonicalForm` | coco-rs/keybindings/src/parser.rs:84-166 | every accepted string prints to an accepted one, printing the reparse gives the same string, and the reparse is the same chord if and only if no base key is a named arrow |
| `KeyChord.ArrowDoesNotComeBack` | coco-rs/keybindings/src/display.rs:138-141 | the concrete failure for the up key |
| `KeyChord.ParseCombo` | coco-rs/keybindings/src/parser.rs:103-150 | the token loop computes the parse all results above are about, errors included |
| `KeyChord.ParseChord` | coco-rs/keybindings/src/parser.rs:84-100 | the chord parser, first failing combo deciding the error; accepted chords are canonical |
| `KeyChord.KeystrokeToString` | coco-rs/keybindings/src/display.rs:38-62 | prints in the fixed modifier order; canonical combos read back |
| `Text.SplitMeaning` | coco-rs/keybindings/src/parser.rs:115-115 | pieces hold no separator and join back to the string |
| `Text.WordsOfJoin` | coco-rs/keybindings/src/parser.rs:92-95 | words joined by a blank split back into the words |
| `Text.WordsKeepTheRest` | coco-rs/keybindings/src/parser.rs:92-95 | the words of a text hold everything but its blanks, in order |
| `Text.TrimMeaning` | coco-rs/keybindings/src/parser.rs:88-116 | trimming cuts blanks off both ends and leaves none there |

## Left out

- Mailbox.PickMeaning: does not model how message text is recognised as plain text or parsed as a protocol message; the message kind stands for the outcome.
- MailboxControl.ScheduleIndependence: the mode part assumes no plan approval was consumed, because an approval also writes the mode (MailboxControl.ModeIsLastSet covers both); the rules part does not.
- MailboxStore.TeammateInbox.ScanNextPrompt: without the scan's last arm, the task list, which TaskList.TaskListStore.ClaimFirstAvailableTask models.
- MailboxStore.TeammateInbox.PollForPrompt: the same, and for a pass nothing comes between.
- TaskList.TaskListStore.ClaimTask: does not model the fast path without the busy check, deletion or reset of tasks; teammates' names are numbers because only their equality matters.
- TaskList.TaskListStore.UpdateStatus: the status of the partial update only; its other fields are the edits of HandOut.
- TaskList.TaskListStore.ClaimFirstAvailableTask: undisturbed, and without errors of listing or updating, which end the scan with nothing.
- TeammateRun.RunAccounting: totals are unbounded integers, so 32- and 64-bit overflow is not modelled.
- TeammateRun.RunInProcessTeammate: does not model compaction, prompt wording, how a plan request id is found in an answer, or what a query does to the outside world.
- TeammateNames.SanitizedIsClean: folds case and tests letters and digits for ASCII only; other characters pass unchanged.
- Roster.MirrorIsTheDisk: team description, hidden panes, allowed paths and subscriptions, which no operation touches, are not modelled.
- RosterStore.TeamRosterStore.EditByMemberName: stands for both the active and the mode update, which differ only in the field set.
- Runner.SettledForGood: says who gets a handle's result, not what the result is; the translation of join errors is not modelled.
- Runner.InProcessAgentRunner.RegisterAgent: does not model the agent's context record beyond its identity.
- Runner.InProcessAgentRunner.CancelAgent: does not model setting the agent's cancel flag.
- Runner.InProcessAgentRunner.CancelAllAgents: does not model setting the agents' cancel flags.
- BoundedRead.Reader.CaptureStdout: does not model timeouts or the process around the stream.
- Hooks.KeyMeaning: the printed form of a command's shell is an input; it holds no NUL because it is printed with escapes.
- HookRegistry.FoundIff: does not model the additional filter on tool-call conditions or the function hooks.
- AsyncHooks.EveryHookDeliveredOnceIff: counts deliveries; hook ids are numbers because only their equality matters.
- ReplBridge.OrderIsKept: stated one way; a careless step breaks the order at once (ReplBridge.OrderIsKeptIff), but what went out may still be in order by luck.
- RosterRaces.OvertakenWriteIff: about the first overtaken write of a run and about ids; after it the file may hold members that were erased and brought back.
- RosterRaces.TimelyRunsAreSerial: a read that meets a half-written file is a failed read.
- ReplBridge.Outbound.ChangeTo: does not model telling the watchers of the state.
- ReplBridge.Outbound.DrainBuffer: the channel does not close during the call; DrainOne steps between which it does are covered by ReplBridge.EveryMessageOnce.
- Timeline.RowsBrighten: recency is a real number, so 32-bit rounding is not modelled.
- Timeline.BusiestDay: returns the day's start instead of its printed label; labels are not modelled.
- Timeline.BuildBuckets: a row's printed label is not modelled.
- Timeline.Bucketize: the same.
- Timeline.LockedRowsAreFew: counts are unbounded integers.
- KeyChord.KeystrokeToString: the platform display strings are not modelled.
- The language-model engine, hook processes, HTTP, DNS, process groups and timeouts.
- The file system, JSON, regular expressions and globs.
- Worktrees and spawning, tokens and secrets, address filtering, literal key tables, command registration, journey snapshots and code generators.
