# The kubeadm operator, modelled and proved

The kubeadm operator carries out an Operation on a cluster (upgrade, certificate renewal or a custom workflow) with three
controllers that share nothing but stored objects:

- the operation controller plans RuntimeTaskGroups, creates them one at a time and keeps the agent DaemonSet;
- the group controller matches nodes with RuntimeTasks and creates those one at a time;
- the task controller, one agent per node, moves a cursor over the commands of a task, with failure, recovery and pause.

The project models all three, the code between them and the check of licence headers that the repository ships.

## How it is built

| file | content |
|---|---|
| `names.dfy` | Go's string order, sorting by name |
| `api.dfy` | the objects as values, and the enumerations parsed from strings |
| `matching.dfy` | the specified matching of desired and current objects and the six views |
| `machine.dfy` | one reconcile of each controller and one user move as functions; runs |
| `schedule.dfy` | the order that plan and node names impose |
| `safety.dfy` | the invariant of the whole system and its proof for every step |
| `sightings.dfy`, `outcomes.dfy` | what each controller sees, does and tells in one reconcile, of the objects themselves and of the strings the user writes |
| `guarantees.dfy`, `execution.dfy` | what holds over whole runs |
| `reports.dfy` | phases, counters and the agents, as the user sees them |
| `modes.dfy` | pause, dry run, controlled mode |
| `progress.dfy`, `liveness.dfy` | how many steps, and when completion can be reached |
| `fairness.dfy` | every fair schedule completes the operation |
| `reach.dfy` | how runs can go on: what the code lets happen |
| `lists.dfy`, `controllers.dfy`, `plans.dfy` | the imperative code, classes that are changed step by step, proved against those functions |
| `selectors.dfy`, `workflows.dfy` | what the plans promise |
| `coverage.dfy` | the nodes and commands that plans and selectors come to |
| `borrowing.dfy` | workflows in which a group takes the tasks of another for its own |
| `boilerplate.dfy` | the licence header check |

A run starts with no groups and no tasks and is any interleaving of reconciles and user moves (`Machine.IsRun`). A reconcile reads
its own object as stored, but its lists, and the operation above it, as they were in this or any earlier state of the run. Commands
succeed or fail freely; any kinds of API calls of a reconcile may fail (`Fault`), and then the reconcile ends as the code ends. The
user may toggle the pause and set the recovery mode of any task at any time. Two histories are kept beside the objects: `ran`, the
commands handed to an agent, and `resolved`, the commands left behind.

Every method of the three controllers is proved to take the stored system from one state to the one that `Machine.Next` gives, so
what is proved of runs is about the code as it is written, branch by branch.

A selector of a custom workflow may carry expressions, and then a group may not find its own tasks, or find those of an earlier
group instead. `Schedule.Made` says on which nodes a group then makes a task, and `Schedule.Works` whether it can be completed: if it
finds its own tasks, or tasks of an earlier group on exactly its nodes. All results hold of every plan in these terms, and
`borrowing.dfy` compares them with what was asked for. In the table "run" means a proper run (`Safety.ProperRun`): a group that takes
the tasks of an earlier group for its own reads no list of tasks from before that group was completed. Where no group does so, in
every built-in plan and every custom one without such expressions, every run is proper (`Safety.EveryRunIsProper`); where one does,
this is needed (`Borrowing.StaleListAddsTask`). A selector finds the tasks of one group at most (`Schedule.SelectorsSingle`), which
is so under every plan (`Selectors.PlansSingle`).

Every lemma to which Dafny would apply its automatic induction switches it off; inductions are written out.

## Where the code and its documentation part, and where it surprises

- Controlled mode is documented to pause before each command (operation_execution_mode.go lines 27-29). The pause it sets is
  overwritten before it is read: `Modes.ControlledRunHasAuto`.
- A failed task is meant to wait for a recovery choice. It is run again without one, and a later success can leave the old error
  in place: `Guarantees.FailedTaskRunsAgain`, `Reach.FailedTaskIsRunAgain`. A skip can then leave behind a command that was never
  run (`Reach.UntriedCommandIsSkipped`); the user can tell from the command number in the error: `Reach.SkipOfAttempted`.
- The guard for a cursor out of range sets an error and goes on to index the list. `Guarantees.PanicsExactly` says when, and
  `Guarantees.RunCursorInRange` that this takes a task without commands.
- The order label on groups is never used for sorting, so a custom workflow runs in name order: `Workflows.CustomOrder`.
- Task names are group name, dash, node name, and two pairs can make the same name; the operation then stops for good:
  `Workflows.DistinctExactly`, `Workflows.WorkflowThatBlocks`.
- A pause that has been noted does not hold a reconcile that read the operation before: `Reach.PauseIsMissed`, and exactly when a
  reconcile is held, `Modes.TaskRunsExactly` and `Modes.GroupCreatesExactly`.
- Only the match labels of a custom group's selector are replaced. Match expressions of the user stay, and can keep the group from
  finding its own tasks for good (`Selectors.PlansSeparate`, `Workflows.SelectorThatBlocks`) or have it completed on the tasks of
  another group with none of its own commands run (`Borrowing.WorkflowThatSkips`).

## Model

| member | source | states |
|---|---|---|
| `Guarantees.RunFollowsProgram` | k8s/operator/controllers/runtimetaskgroup_controller.go:238-267 | In every run of every plan, whatever interleaving, stale list, failed call, failure, retry, skip or pause, the commands left behind (succeeded, rehearsed or skipped) are a prefix of the nested loop "groups by name, nodes on which the group makes a task by name, commands in order", and all of it once the operation is completed |
| `Guarantees.RunIsSerial` | k8s/operator/controllers/operation_controller.go:303-328 | In every state of every run only the last group and only the last task can be incomplete, and an incomplete task belongs to that group |
| `Guarantees.RunFailStop` | k8s/operator/controllers/runtimetaskgroup_controller.go:203-223 | As long as some task is incomplete (in particular failed, whether or not a recovery is chosen) no step of any controller creates a group or a task |
| `Guarantees.RunCompletionIsFinal` | k8s/operator/controllers/operation_controller.go:82-90 | A completed operation has every planned group, completed, and exactly one task, completed and free of errors, for every (group, node) pair that the plan leads to; no later step of the run changes groups, errors, cursors or histories |
| `Guarantees.RunHistory` | k8s/operator/controllers/runtimetask_controller.go:278-289 | In every run the resolved history equals the history read off the cursors of the stored tasks |
| `Guarantees.RunCursorInRange` | k8s/operator/controllers/runtimetask_controller.go:253-265 | In every run the cursor of a started task names a command, unless and only unless the task has no command |
| `Guarantees.PanicsExactly` | k8s/operator/controllers/runtimetask_controller.go:254-265 | The agent indexes the command list out of range (the guard sets an error but goes on) exactly for a started, unpaused, unrecovered task without commands outside dry run |
| `Guarantees.FailedTaskRunsAgain` | k8s/operator/controllers/runtimetask_controller.go:155-160 | A failed task with no recovery chosen is run again by its next reconcile if and only if the operation is not paused, it is not a dry run and there is a command; a success then clears the old error only if it was the last command |
| `Reach.FailedTaskIsRunAgain` | k8s/operator/controllers/runtimetask_controller.go:264-276 | Every run that has come to a task under way, unpaused and not in dry run, can go on so that the task fails and runs the same command again without a recovery choice |
| `Reach.ErrorTellsAttempt` | k8s/operator/controllers/runtimetask_controller.go:264-272 | In every run, if the error of the last task names its current command then that command has been run; and, if no status of a task was lost in the run, only then |
| `Reach.SkipOfAttempted` | k8s/operator/controllers/runtimetask_controller.go:178-196 | In every run in which no status of a task was lost, a skip leaves behind a command that has been run if and only if the error names it |
| `Reach.LostStatusHidesAttempt` | k8s/operator/controllers/runtimetask_controller.go:117-125 | Every run that has come to a task under way before its last command can go on, losing one status, to a command that has been run while the error names the one before |
| `Reach.UntriedCommandIsSkipped` | k8s/operator/controllers/runtimetask_controller.go:282-288 | Every run that has come to a task under way before its last command can go on so that the task fails, succeeds, keeps its error, and has its next command skipped that was never run |
| `Reach.ProgramDistinct` | k8s/operator/controllers/runtimetaskgroup_controller.go:257-262 | No command is twice in the sequential program |
| `Guarantees.RecoveryIsConsumed` | k8s/operator/controllers/runtimetask_controller.go:168-209 | A recovery choice waits until there is an error and is then used by one reconcile that runs nothing and clears both. "RetryFailedCommand" leaves the task as it is at the same command and leaves nothing behind; "SkipFailedCommand" leaves the current command behind and moves on, or completes the task after the last one; any other string is no choice: it stays, and the task counts as failed |
| `Outcomes.TaskReconcileDoes` | k8s/operator/controllers/runtimetask_controller.go:134-290 | A reconcile of any incomplete task under any operation read: which command is run and which left behind, and started, cursor, completed, error, recovery, pause and phase of the new status, each from the stored status and the strings of mode and recovery |
| `Outcomes.TaskFaults` | k8s/operator/controllers/runtimetask_controller.go:117-125 | A failing patch loses the whole status of a task but not that the command was run |
| `Execution.RunRunsNext` | k8s/operator/controllers/runtimetask_controller.go:246-265 | In every step of every run the only command that can be handed to an agent is the next one of the sequential program |
| `Execution.RunNeverGoesBack` | k8s/operator/controllers/runtimetask_controller.go:246-289 | The commands attempted over a whole run are at non-decreasing places of the program: repeated after failures, retries or lost status writes, never an earlier one |
| `Execution.RunCursorCounts` | k8s/operator/api/v1alpha1/runtimetask_types.go:92-106 | What a task has left behind is exactly its commands before the cursor, once each and in order: cursor = 1 + successes + skips for a started incomplete task, and all commands for a completed one |
| `Safety.StepKeeps` | k8s/operator/controllers/runtimetaskgroup_controller.go:257-262 | One step that reads lists from any earlier state (a group that takes the tasks of an earlier group for its own: from after that one was completed) keeps the invariant (groups are a front of the sorted plan, tasks a front of the (group, node) slots, all but the last completed) and only lets objects grow: stale reads do no harm because names are deterministic and an existing name is refused |
| `Safety.RunKeeps` | k8s/operator/controllers/operation_controller.go:319-324 | The invariant and the growth order hold in every state of every run |
| `Safety.EveryRunIsProper` | k8s/operator/controllers/runtimetaskgroup_controller.go:172-178 | If no group finds tasks of an earlier one, every run at all is a proper one, of which the other results speak |
| `Safety.TaskStepKeepsTask` | k8s/operator/controllers/runtimetask_controller.go:134-166 | A task reconcile keeps what the task is, keeps a completed task as it is, and keeps started / cursor / completed / error consistent |
| `Modes.PausedOperationCreatesNothing` | k8s/operator/controllers/operation_controller.go:303-319 | Under a pause an operation that is not completed stays paused exactly if it is not completed by the reconcile. Completion clears the pause and goes on to the creation code, but since the views partition the list there is then nothing to create |
| `Outcomes.RunCompletedUnpaused` | k8s/operator/api/v1alpha1/operation_types.go:104-113 | In every state of every run no completed operation and no completed group is paused |
| `Outcomes.RunPausedCompletion` | k8s/operator/controllers/runtimetask_controller.go:178-196 | In every run a completed task is paused if and only if the reconcile that completed it read a paused operation, and that was a skip of its last command |
| `Modes.RunPauseFreezes` | k8s/operator/controllers/runtimetaskgroup_controller.go:246-248 | From the state in which the wanted pause is noted, while nobody lifts it and the reconciles read the operation as it was since then, no step creates a group or task or runs a command |
| `Modes.TaskRunsExactly` | k8s/operator/controllers/runtimetask_controller.go:226-265 | A task reconcile runs a command if and only if the operation it read, not the stored one, is unpaused and not in dry run, and the task is started, incomplete, not recovering and has a command |
| `Modes.GroupCreatesExactly` | k8s/operator/controllers/runtimetaskgroup_controller.go:196-267 | A group reconcile creates a task if and only if the operation it read, not the stored one, is unpaused, and the group is under way with none of its tasks active, failed or invalid and one missing whose name is free |
| `Reach.PauseIsMissed` | k8s/operator/controllers/runtimetask_controller.go:134-143 | Every run that has come to a task under way can go on so that a pause is wanted and noted and the agent, which read the operation before, still runs a command |
| `Modes.DryTaskStep` | k8s/operator/controllers/runtimetask_controller.go:243-251 | Dry run leaves a task in the same state as a successful execution exactly when the real agent would not die in the same reconcile, and it runs nothing |
| `Modes.RunDryIsFaithful` | k8s/operator/controllers/runtimetask_controller.go:243-289 | If every task has a command, a run in automatic mode in which every command succeeds becomes, event by event, a run in dry run with the same groups, tasks, operation status and resolved history and an empty log of commands run |
| `Modes.DryRunHasAuto` | k8s/operator/controllers/runtimetask_controller.go:243-289 | And back: if every task has a command, every dry run rehearses a run in automatic mode, event by event, in which every command succeeds and every state is the same but for the mode and the commands run |
| `Modes.ControlledPauseIsIgnored` | k8s/operator/controllers/runtimetask_controller.go:285-288 | The pause that controlled mode sets on a task never changes what a later reconcile does: it is overwritten by the operation pause before it is looked at |
| `Modes.ControlledRunHasAuto` | k8s/operator/controllers/runtimetaskgroup_controller.go:278-281 | Every run in controlled mode has a run in automatic mode with the same events that goes through the same states, task pauses aside, and runs and leaves behind the same commands: controlled mode holds nothing (against operation_execution_mode.go lines 27-29) |
| `Modes.RunControlledIsAuto` | k8s/operator/controllers/runtimetask_controller.go:285-288 | Any two runs with the same events, one in each of these modes, agree in that way |
| `Modes.RunMode` | k8s/operator/api/v1alpha1/operation_execution_mode.go:40-50 | No step changes the execution mode |
| `Reports.RunTells` | k8s/operator/controllers/runtimetaskgroup_controller.go:238-243 | In every state of every run, whatever calls failed, an operation, group or task has the phase "succeeded" exactly when it is completed, and the counters of a completed group or operation count all its tasks or groups as completed and none as running, failed or invalid |
| `Reports.RunAgentsAreRemoved` | k8s/operator/controllers/operation_controller.go:82-90 | Once the operation is completed, its next reconcile that gets through to the DaemonSet removes it, and it stays away for the rest of the run |
| `Progress.StepWork` | k8s/operator/controllers/operation_controller.go:294-328 | No step undoes work (start, create, execute, complete) and no step does two units of it |
| `Progress.RunExactCount` | k8s/operator/controllers/runtimetaskgroup_controller.go:228-267 | The number of working steps of a run of any plan is at most 2 + the sum over planned groups of 3 + nodes with a task x (2 + max(1, commands)), and equal to it exactly when the operation is completed |
| `Progress.TotalIsSlotsWork` | k8s/operator/controllers/runtimetaskgroup_controller.go:238-262 | The nested sum equals the work counted slot by slot along the schedule |
| `Liveness.RecoveryUnsticks` | k8s/operator/controllers/runtimetaskgroup_controller.go:200-204 | From every reachable state whose last task is able to go on (a failed one with a known recovery chosen included), one group reconcile and two operation reconciles leave group and operation free of errors and the agent DaemonSet present |
| `Liveness.FailureIsReported` | k8s/operator/controllers/runtimetaskgroup_controller.go:194-223 | From every reachable state whose last task is failed, one group reconcile and two operation reconciles leave errors on group and operation and no agent DaemonSet if the group can be completed at all; and no error and the DaemonSet if not, since such a group does not see its task |
| `Liveness.CompletionIsReachable` | k8s/operator/controllers/operation_controller.go:264-328 | From every healthy state undisturbed controllers, with agents only while the DaemonSet is there, can bring the operation to completion |
| `Liveness.CompletesExactly` | k8s/operator/controllers/runtimetaskgroup_controller.go:289-302 | A fresh unpaused operation of any plan can complete on its own if and only if each group finds its own tasks, or those of an earlier group on just its nodes, no two (group, node) pairs make the same task name and, outside dry run, every task has a command |
| `Fairness.FairSchedulesComplete` | k8s/operator/controllers/operation_controller.go:264-328 | From every healthy state every schedule completes the operation whose rounds each reconcile the operation, every planned group and every planned task at least once in any order; five rounds for each unit of work are enough |
| `Fairness.FairJourneysComplete` | k8s/operator/controllers/operation_controller.go:264-328 | Between the fair rounds anything may happen that can happen in a run, stale reads, failed calls, failed commands, pauses, as long as each round finds the system healthy again: each such step costs at most four rounds |
| `Fairness.CompletableIsFair` | k8s/operator/controllers/operation_controller.go:303-328 | A fresh operation that can complete on its own at all is completed by every fair schedule |
| `Fairness.BuiltInPlansAreCarriedOut` | k8s/operator/operations/factory.go:44-58 | Every fair schedule completes an upgrade or certificate renewal, whatever the nodes and the mode, and whatever the operation is called if its objects can be stored |
| `Fairness.MoveGains` | k8s/operator/controllers/runtimetaskgroup_controller.go:196-204 | No move of a healthy system loses ground, and the one that is needed next always gains some |
| `Reach.RunThere` | k8s/operator/controllers/operation_controller.go:303-328 | What moves can bring about from a fresh operation, some run brings about |
| `Reach.RunsCanBeCompleted` | k8s/operator/controllers/operation_controller.go:264-328 | However a run has gone, once it has come to a healthy state it can go on with any fair rounds, and enough of them complete the operation |
| `Matching.ViewsPartition` | k8s/operator/controllers/runtimetask_reconcile.go:115-152 | The six views have lengths that add up to that of the list, and if all items are completed every other view is empty |
| `Matching.ViewCounts` | k8s/operator/controllers/runtimetaskgroup_reconcile.go:114-144 | Every item is in exactly one view as often as in the list |
| `Matching.ViewsAscending` | k8s/operator/controllers/runtimetask_reconcile.go:107-112 | A view of a list with strictly ascending names has strictly ascending names |
| `Sightings.TaskViewsMean` | k8s/operator/controllers/runtimetask_reconcile.go:115-152 | Each of the six views of tasks, said of the nodes and tasks alone: its names are, ascending and each once, those with a node and no task (to be created); with no node, or with two tasks (invalid); with one task that has an error and neither "RetryFailedCommand" nor "SkipFailedCommand" chosen (failed); and else with one that is completed, started (running) or not started (pending) |
| `Sightings.GroupViewsMean` | k8s/operator/controllers/runtimetaskgroup_reconcile.go:114-144 | The same for groups, by the last current group of a planned name: an error comes before completion and completion before start |
| `Lists.MatchTasksExactly` | k8s/operator/controllers/runtimetask_reconcile.go:66-113 | Each name of a node or of a task is listed exactly once, ascending, with the last node of that name if there is one and with all tasks naming it, as often as they occur, and no others |
| `Lists.TasksOnConcat` | k8s/operator/controllers/runtimetask_reconcile.go:86-98 | The tasks of an item are in list order |
| `Lists.MatchGroupsExactly` | k8s/operator/controllers/runtimetaskgroup_reconcile.go:63-112 | Each planned or current name is listed exactly once, ascending, with the last planned group and the last current group of that name if there are any |
| `Lists.NodeOrderIsIrrelevant` | k8s/operator/controllers/runtimetask_reconcile.go:69-76 | With distinct node names, permuting the nodes changes nothing |
| `Lists.ReconcileTasks` | k8s/operator/controllers/runtimetask_reconcile.go:66-113 | The map-filling loops, walked in any map order, sorted and sorted out, give exactly the specified views |
| `Lists.TaskReconcileList.DeriveViews` | k8s/operator/controllers/runtimetask_reconcile.go:115-152 | The loop that appends to the view slices gives the six views of the list |
| `Lists.ReconcileTaskGroups` | k8s/operator/controllers/runtimetaskgroup_reconcile.go:63-112 | The same for groups |
| `Lists.TaskGroupReconcileList.DeriveViews` | k8s/operator/controllers/runtimetaskgroup_reconcile.go:114-144 | The same for groups; a group has failed as soon as it has an error |
| `Controllers.RuntimeTaskReconciler.ReconcileRecovery` | k8s/operator/controllers/runtimetask_controller.go:168-209 | Ends with the task recovered, or untouched when there is no error or no known recovery mode |
| `Controllers.RuntimeTaskReconciler.ReconcileNormal` | k8s/operator/controllers/runtimetask_controller.go:220-290 | Ends in the specified next task state; says which command was run and whether the lookup was out of range |
| `Controllers.RuntimeTaskReconciler.ReconcilePhase` | k8s/operator/controllers/runtimetask_controller.go:300-333 | Phase by precedence: failed, succeeded, paused, running, pending |
| `Controllers.RuntimeTaskReconciler.ReconcileTask` | k8s/operator/controllers/runtimetask_controller.go:134-166 | Recovery, pause override, normal and phase put together are one step of the task machine |
| `Controllers.RuntimeTaskReconciler.Reconcile` | k8s/operator/controllers/runtimetask_controller.go:71-132 | The stored system after the reconcile is the one the state machine specifies: absent, foreign and completed tasks are left alone, a lost patch loses the status but not the command |
| `Controllers.RuntimeTask.SetCompletionTime` | k8s/operator/api/v1alpha1/runtimetask_types.go:98-106 | Completion clears pause and error and changes nothing else |
| `Controllers.RuntimeTaskGroupReconciler.ReconcileTasks` | k8s/operator/controllers/runtimetaskgroup_controller.go:162-192 | Nodes by selector and filter matched against tasks by selector; counters are the lengths of the views, and untouched if one of the selectors is refused |
| `Controllers.RuntimeTaskGroupReconciler.ReconcileNormal` | k8s/operator/controllers/runtimetaskgroup_controller.go:194-270 | Ends in the specified group state, having created at most the first missing task |
| `Controllers.RuntimeTaskGroupReconciler.CreateTasksReplica` | k8s/operator/controllers/runtimetaskgroup_controller.go:273-306 | Creates the task named group-node with the labels and commands of the group, unless the call fails or the name is taken |
| `Controllers.RuntimeTaskGroupReconciler.ReconcilePhase` | k8s/operator/controllers/runtimetaskgroup_controller.go:316-349 | Phase by the same precedence |
| `Controllers.RuntimeTaskGroupReconciler.ReconcileTaskGroup` | k8s/operator/controllers/runtimetaskgroup_controller.go:119-151 | The parts of a group reconcile put together are one step of the group machine |
| `Controllers.RuntimeTaskGroupReconciler.Reconcile` | k8s/operator/controllers/runtimetaskgroup_controller.go:70-117 | The stored system after the reconcile is the one the state machine specifies, on every failing call too |
| `Outcomes.GroupReconcileDoes` | k8s/operator/controllers/runtimetaskgroup_controller.go:119-349 | A reconcile of any incomplete group, for any nodes and tasks, by what the names met stand for: the five counters are their numbers; the error is cleared if something is pending or running, and else tells of something invalid before something failed; start, completion, pause and phase of the new status; and exactly when a task is created, for the first missing name, with name, labels, commands and the pause of controlled mode |
| `Outcomes.GroupFaults` | k8s/operator/controllers/runtimetaskgroup_controller.go:119-151 | A failing list leaves all but the pause, a failing create costs the task and the phase, a failing patch the status and nothing else |
| `Controllers.RuntimeTaskGroupReconciler.ListNodesBySelector` | k8s/operator/controllers/util.go:345-362 | The nodes selected by labels and expressions, in list order, or an error if and only if the selector is not one |
| `Controllers.RuntimeTaskGroupReconciler.ListTasksBySelector` | k8s/operator/controllers/util.go:384-399 | The tasks that the group takes for its own, or an error if and only if its selector is more than labels |
| `Controllers.NodeList.FilterNodes` | k8s/operator/controllers/util.go:364-382 | Head is the first by name, Tail the rest, All and unknown everything; the list is sorted in place only for Head and Tail |
| `Controllers.RuntimeTaskGroup.SetCompletionTime` | k8s/operator/api/v1alpha1/runtimetaskgroup_types.go:136-145 | Completion clears pause and error and changes nothing else |
| `Controllers.OperationReconciler.ReconcileDaemonSet` | k8s/operator/controllers/operation_controller.go:116-159 | Afterwards the DaemonSet is there exactly if it should be, or unchanged if the call failed |
| `Controllers.OperationReconciler.ReconcileTaskGroups` | k8s/operator/controllers/operation_controller.go:228-256 | Planned groups matched against listed ones; counters are the lengths of the views |
| `Controllers.OperationReconciler.ReconcileNormal` | k8s/operator/controllers/operation_controller.go:258-332 | Ends in the specified operation state, having created at most the first missing group |
| `Controllers.OperationReconciler.ReconcilePhase` | k8s/operator/controllers/operation_controller.go:342-375 | Phase by the same precedence |
| `Controllers.OperationReconciler.ReconcileOperation` | k8s/operator/controllers/operation_controller.go:167-206 | The parts of an operation reconcile put together are one step of the operation machine |
| `Controllers.OperationReconciler.Reconcile` | k8s/operator/controllers/operation_controller.go:68-114 | The stored system after the reconcile is the one the state machine specifies; a completed operation only has its DaemonSet removed |
| `Outcomes.OperationReconcileDoes` | k8s/operator/controllers/operation_controller.go:167-375 | The same for a reconcile of any incomplete operation and any plan and list of groups; a group is created for the first missing name, from the last planned group of that name, and afterwards the DaemonSet is there exactly if there was no error |
| `Outcomes.OperationFaults` | k8s/operator/controllers/operation_controller.go:167-206 | A failing DaemonSet call or list leaves all but the pause, a failing create costs the group and the phase, a failing patch the status and nothing else |
| `Controllers.Operation.SetCompletionTime` | k8s/operator/api/v1alpha1/operation_types.go:104-113 | Completion clears pause and error and changes nothing else |
| `Controllers.ToBeCreatedHaveNodes` | k8s/operator/controllers/runtimetaskgroup_controller.go:257-260 | An item to be created has a node, and is called like it, so the dereference is safe |
| `Controllers.ToBeCreatedArePlanned` | k8s/operator/controllers/operation_controller.go:319-322 | An item to be created has a planned group, so the dereference is safe |
| `Plans.CreateBasicTaskGroup` | k8s/operator/operations/util.go:27-65 | Name operation-order-name; the labels of the operation, then those of the group, as labels and as selector |
| `Plans.FixupCustomTaskGroup` | k8s/operator/operations/util.go:104-127 | The user's group under its own name, with its labels and the match labels of its selector replaced; the match expressions stay |
| `Plans.PlanUpgrade` | k8s/operator/operations/upgrade.go:27-88 | Three groups: first control plane node, the other control plane nodes, the workers, each with its commands |
| `Plans.PlanRenewCertificates` | k8s/operator/operations/renewcertificates.go:29-44 | One group on the control plane nodes |
| `Plans.PlanCustom` | k8s/operator/operations/custom.go:29-39 | One group per workflow item, numbered from 01 |
| `Coverage.PlanChosen` | k8s/operator/operations/factory.go:44-58 | A renewal comes before an upgrade and an upgrade before a workflow if more than one is asked for; nothing is planned if and only if none is |
| `Coverage.BasicGroupIs` | k8s/operator/operations/util.go:27-65 | A basic group carries the labels of the operation and the two of its own, by their full names, and starts with no commands and no filter |
| `Coverage.CustomKeeps` | k8s/operator/operations/custom.go:32-34 | A custom group keeps the name, nodes, filter, commands and match expressions that the user wrote; its labels are those of the operation and the two of its own |
| `Coverage.TwoDigitsRead` | k8s/operator/operations/custom.go:33 | The order label reads as the number of the group, in decimal digits, at least two, and with a leading zero only below ten |
| `Workflows.PlanOrderSurvives` | k8s/operator/controllers/runtimetaskgroup_reconcile.go:106 | A plan is carried out in its own order if and only if its names are strictly ascending |
| `Workflows.CustomOrder` | k8s/operator/operations/custom.go:32-34 | A custom workflow runs in workflow order if and only if its names are strictly ascending; the order label plays no part |
| `Workflows.UpgradeOrder` | k8s/operator/operations/upgrade.go:32-83 | Whatever the operation is called, the upgrade groups are carried out in plan order |
| `Selectors.PlansSeparate` | k8s/operator/operations/util.go:113-120 | Under every plan each group finds its own tasks and no others if and only if every expression that the user put into a selector is a one-value In and the last one on each key agrees with the labels of the group |
| `Selectors.PlansSingle` | k8s/operator/operations/util.go:109-118 | Under every plan, whatever expressions the user put in, a selector finds the tasks of one group at most |
| `Selectors.BuiltInRunsAreProper` | k8s/operator/operations/util.go:49-53 | Every run of an upgrade or renewal is a proper one |
| `Selectors.FindsExactly` | k8s/operator/vendor/k8s.io/apimachinery/pkg/apis/meta/v1/helpers.go:71-90 | The selector of one such group finds its own tasks if and only if its expressions agree in that way, and then stands for just its labels |
| `Selectors.WithExpressionsAt` | k8s/operator/vendor/k8s.io/apimachinery/pkg/apis/meta/v1/helpers.go:71-90 | Turning a selector into labels fails if and only if some expression is not a one-value In; otherwise the last expression on a key decides, or else the match labels |
| `Selectors.BuiltInPlansSelect` | k8s/operator/operations/util.go:49-53 | The selectors of upgrade and renewal always do what they should |
| `Borrowing.MadeExactly` | k8s/operator/controllers/runtimetaskgroup_controller.go:162-192 | A group makes a task on each of its nodes if and only if it has no nodes, or it can list and finds its own tasks, or finds no task at all and has one node |
| `Borrowing.ProgramExactly` | k8s/operator/operations/util.go:119 | The program that runs follow is the one that was asked for, every planned group on all its nodes, if and only if each group has no commands, or no nodes, or can list and finds its own tasks, or finds none and has one node |
| `Borrowing.CompletedDoesAsked` | k8s/operator/controllers/runtimetaskgroup_controller.go:238-243 | A completed operation has left behind all that was asked for if and only if every group with nodes and commands finds its own tasks |
| `Borrowing.RunStopsAt` | k8s/operator/controllers/operation_controller.go:312-328 | No run gets past the first group that does not work: it has no group after it, and leaves behind a prefix of the program up to and including that group |
| `Borrowing.StrangersAreReported` | k8s/operator/controllers/runtimetaskgroup_controller.go:205-214 | A group that does not find its own tasks but those of an earlier group, one of them on a node that is not its own, has a reconciliation error after its next reconcile |
| `Borrowing.RunStaysWithStrangers` | k8s/operator/controllers/runtimetaskgroup_controller.go:205-214 | From then on, for ever: no step of the run clears the error or creates anything |
| `Borrowing.BorrowersSkipCommands` | k8s/operator/controllers/runtimetaskgroup_controller.go:238-243 | Whenever an operation can complete on its own and a group with nodes and commands does not find its own tasks, some run completes it without having left behind all that was asked for |
| `Borrowing.WorkflowThatSkips` | k8s/operator/operations/util.go:119 | A custom workflow of two groups, the second with expressions that name the labels of the first: on any nodes and in any mode some run completes it with the commands of the first group only |
| `Borrowing.StaleListAddsTask` | k8s/operator/controllers/runtimetaskgroup_controller.go:172-178 | The same workflow has a run in which the second group reads a list of tasks that is too old and makes a task all the same, more than there are slots: so proper runs are needed there |
| `Workflows.HeadAndTail` | k8s/operator/controllers/util.go:364-382 | With distinct names, Head has one node (or none of none) and Head followed by Tail is the selected nodes in name order |
| `Coverage.DesiredExactly` | k8s/operator/controllers/util.go:364-371 | Under any filter string but "Head" and "Tail" a group wants exactly the nodes that its selector selects, in the order of the list |
| `Coverage.FilteredNodes` | k8s/operator/controllers/util.go:364-382 | By the filter string: the first of the selected names under "Head", all but the first under "Tail", all of them under any other |
| `Coverage.InIsAnyOf` | k8s/operator/vendor/k8s.io/apimachinery/pkg/labels/selector.go:192-236 | The operator In asks for any of its values, and with one value for just that label |
| `Coverage.OperatorsMean` | k8s/operator/vendor/k8s.io/apimachinery/pkg/labels/selector.go:192-236 | NotIn is the opposite of In, Exists asks for any value, DoesNotExist for none |
| `Coverage.SelectsAll` | k8s/operator/vendor/k8s.io/apimachinery/pkg/apis/meta/v1/helpers.go:32-68 | A selector asks for all of its labels and expressions, an empty one for nothing |
| `Coverage.RefusedExactly` | k8s/operator/vendor/k8s.io/apimachinery/pkg/labels/selector.go:134-162 | A selector is refused if and only if one of its expressions has an unknown operator, no values where some are needed or values where none are |
| `Coverage.CustomCoverage` | k8s/operator/operations/custom.go:29-39 | A group of a workflow whose expressions agree with its labels has a task, with the commands that the user wrote, for exactly the nodes that its selector and filter leave |
| `Coverage.CustomRunDoes` | k8s/operator/operations/custom.go:29-39 | In every run such a group has, when the operation is completed, exactly those tasks, completed |
| `Coverage.RenewCoverage` | k8s/operator/operations/renewcertificates.go:29-44 | A renewal has one task for each node with an empty master label, by name, and none for others, each with the one command to renew certificates |
| `Coverage.RenewRunDoes` | k8s/operator/operations/renewcertificates.go:29-44 | In every run a completed renewal has exactly those tasks, completed |
| `Workflows.UpgradeCoverage` | k8s/operator/operations/util.go:75-102 | The first two upgrade groups visit exactly the nodes with an empty master label, in name order and at most one in the first group; the third exactly those without that label |
| `Workflows.UpgradeVisitsOnce` | k8s/operator/operations/upgrade.go:32-83 | An upgrade has exactly one task for a node whose master label is absent or empty, and none for any other node |
| `Workflows.UpgradeAppliesFirst` | k8s/operator/operations/upgrade.go:32-83 | Upgrade apply is for the first task only, on the first control plane node; a task drains its node exactly if it is for a worker, and then drains first and uncordons last |
| `Coverage.UpgradeDoes` | k8s/operator/operations/upgrade.go:32-83 | Every task of an upgrade: kubeadm binaries, then apply on the first control plane node or node on any other, then kubelet and kubectl, each once and in this order, and around them drain and uncordon for a worker and nothing for a control plane node |
| `Coverage.UpgradeRunDoes` | k8s/operator/operations/upgrade.go:32-83 | In every run a completed upgrade has for each control plane node and each worker exactly one task, completed, with those steps, all of them left behind in order |
| `Workflows.UpgradeRunOrder` | k8s/operator/operations/upgrade.go:32-83 | In every run of an upgrade the commands left behind follow: first control plane node, other control plane nodes by name, workers by name |
| `Workflows.DistinctExactly` | k8s/operator/controllers/runtimetaskgroup_controller.go:289 | Task names are distinct if and only if no group name plus dash, continued into another group name, also continues into one of its node names |
| `Workflows.PlanCompletesExactly` | k8s/operator/operations/factory.go:44-58 | Whatever is planned, the operation can complete on its own if and only if each group finds its own tasks, or those of an earlier group on just its nodes, no names clash and, outside dry run, every task has a command |
| `Workflows.RunCompletesOnlyIf` | k8s/operator/controllers/runtimetaskgroup_controller.go:162-178 | In no run at all, whatever the user does, does an operation complete with a group that does not work or with task names that clash |
| `Workflows.BuiltInPlansComplete` | k8s/operator/operations/upgrade.go:27-88 | Upgrade and certificate renewal can always complete, for every node set and mode, and every operation name under which the objects can be stored |
| `Workflows.WorkflowThatBlocks` | k8s/operator/controllers/runtimetaskgroup_controller.go:289-302 | A custom workflow of groups a and a-b on nodes b-c and c that completes in no run at all: both make the task a-b-c |
| `Workflows.SelectorThatBlocks` | k8s/operator/operations/util.go:119 | A custom workflow of one group with nodes whose selector expressions do not agree with its labels completes in no run at all |
| `Boilerplate.VerifyBoilerplate` | k8s/operator/hack/verify-boilerplate.go:89-135 | The verdict, and for a refusal the reason and the line: passes when the first trimmed line with a copyright begins the 13 lines of the boilerplate; the template index stays in range |
| `Boilerplate.VerdictIsUnique` | k8s/operator/hack/verify-boilerplate.go:89-135 | That postcondition holds of one verdict only, so it passes if and only if |
| `Boilerplate.AcceptedExactly` | k8s/operator/hack/verify-boilerplate.go:100-121 | Passing means: from the first copyright line on, 13 consecutive trimmed lines equal to the boilerplate for some space-free year word that contains 20dd |
| `Boilerplate.RenderingsPass` | k8s/operator/hack/verify-boilerplate.go:56-68 | Every rendering of the boilerplate, plain or behind // or #, passes if no line before it contains "Copyright " |
| `Boilerplate.TrimExactly` | k8s/operator/hack/verify-boilerplate.go:56-68 | Trimming gives a text exactly for the lines that are that text without the mark, or the mark, an optional space and the text |
| `Boilerplate.BothMarks` | k8s/operator/hack/verify-boilerplate.go:94-96 | Behind // a mark # is stripped too, but not the other way round |
| `Boilerplate.HasYearExactly` | k8s/operator/hack/verify-boilerplate.go:36 | The year is "20" and two digits at some place |
| `Boilerplate.ContainsExactly` | k8s/operator/hack/verify-boilerplate.go:100 | The copyright mark is found at any place of the line |
| `Boilerplate.TemplateIsWellFormed` | k8s/operator/hack/verify-boilerplate.go:32-51 | Only the first line of the template looks like a copyright line or has a year to fill in, and only the last looks like the end |
| `Boilerplate.SplitJoin` | k8s/operator/hack/verify-boilerplate.go:92 | Splitting at a character undoes joining with it |
| `Boilerplate.JoinSplit` | k8s/operator/hack/verify-boilerplate.go:106 | Joining with a character undoes splitting at it |
| `Boilerplate.IsSupportedFileExtension` | k8s/operator/hack/verify-boilerplate.go:71-86 | A file is checked if and only if its name ends in .go, .py or .sh |

## Left out

- RunPauseFreezes: asks that reconciles read the operation as it was since the pause was noted, because with older copies the code does not hold (`Reach.PauseIsMissed`).
- RunFollowsProgram: like all results about runs asks for a proper run where a group takes the tasks of an earlier group for its own; with an older list the code does not hold (`Borrowing.StaleListAddsTask`), and which older lists do no harm is not worked out.
- ErrorTellsAttempt: the half "only then" asks that no status of a task was lost, because otherwise the code does not hold (`Reach.LostStatusHidesAttempt`).
- RunDryIsFaithful: asks that every task has a command; `Modes.DryTaskStep` says exactly what happens without.
- BuiltInPlansAreCarriedOut: the API server refuses names and labels that are too long or of the wrong form, so an operation name can be too long for its groups or tasks to be created; that is not modelled.
- BuiltInPlansComplete: the same.
- CompletesExactly: is about undisturbed controllers, with current reads, no failing calls, commands that succeed and no user.
- RunTells: asks that the operation is not stored with the phase "succeeded" to begin with, since the controllers only ever add that phase.
- CreateTasksReplica: namespace, annotations and owner reference of the task are not modelled; nor is that an API server which enforces the status subresource stores a new task without the pause and the phase it is created with. No later reconcile depends on that pause (`Modes.ControlledPauseIsIgnored`), and the model has the pending phase for an empty one.
- CreateBasicTaskGroup: API version, kind, owner reference and creation timestamps are not modelled.
- FixupCustomTaskGroup: API version, kind, owner reference and creation timestamps are not modelled.
- ListNodesBySelector: the syntax of label keys and values in a selector is not checked.
- FilterNodes: `sort.Slice` is modelled by one sort that keeps no promise for equal names; node names in a cluster are distinct.
- NodeOrderIsIrrelevant: asks for distinct node names, since of equal names the last node read is kept.
- IsSupportedFileExtension: reading the file, the empty file name and the exit code are not modelled.
- Faults are one flag for each kind of call, so of two calls of one kind in a reconcile either both fail or none does.
- Groups are listed by the labels of their operation; the model takes this to find the groups of the operation and no others.
- Old copies of a reconcile's own object, and a status patch that is written in two parts.
- Mode, plan, labels, node set or node labels that change during a run; label and UUID upkeep on the operation; other operations and namespaces.
- Deletion timestamps and finalizers: the delete branches do nothing at all three levels, and only change the phase.
- Events, logging, watches, owner reference lookups and the informer cache beyond "a list from the past".
- What commands do: success or failure is free. Their progress text is not kept.
- The DaemonSet beyond present or absent; a failing image lookup is one of its faults.
- Error reason and message are one field, which keeps the command number of a failed command but not the rest of the text; timestamps are "set or not set"; 32-bit counters and cursors are unbounded.
- Agents may reconcile at any time in the safety results; the completion results let them only while the DaemonSet is there.
- The items of the reconcile lists are values, so pointers shared between the lists are not modelled.
- Unicode: strings are sequences of characters, and Go's byte order is the order of characters.
