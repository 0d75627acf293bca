/** What holds over whole runs: serial and fail-stop execution, the order of commands, completion, pause. */
module Guarantees {
  import opened Names
  import opened Api
  import opened Matching
  import opened Machine
  import opened Schedule
  import opened Safety

  // ---- the sequential program that a run must follow ----

  /** Commands `1..r` of a task, in order. */
  function Commands(group: string, node: string, r: nat): seq<CommandRef>
  {
    seq(r, i requires 0 <= i < r => CommandRef(group, node, i + 1))
  }

  /** For each (group, node) in order, for each command in order. */
  function Program(slots: seq<Slot>): seq<CommandRef>
  {
    if slots == [] then []
    else
      var s := slots[|slots| - 1];
      Program(slots[..|slots| - 1]) + Commands(s.spec.name, s.node, |s.spec.commands|)
  }

  /** How many of its commands a task has left behind. */
  function ResolvedCount(t: TaskState): nat
  {
    if t.completed then |t.commands| else if t.cursor == 0 then 0 else t.cursor - 1
  }

  /** Task after task in creation order, the commands each has left behind, in order. */
  function History(tasks: seq<TaskState>): seq<CommandRef>
  {
    if tasks == [] then []
    else
      var t := tasks[|tasks| - 1];
      History(tasks[..|tasks| - 1]) + Commands(t.group, t.node, ResolvedCount(t))
  }

  /** One reconcile leaves at most the current command behind, and moves the count with it. */
  lemma ResolvedStep(operation: OperationState, t: TaskState, ok: bool)
    requires TaskOk(t)
    ensures var u := TaskStep(operation, t, ok);
            Commands(t.group, t.node, ResolvedCount(u)) ==
              Commands(t.group, t.node, ResolvedCount(t)) + ResolvedBy(operation, t, ok)
  {
    hide TypedMode, TypedRecovery;
    if !t.completed && !Recovers(t) && Executes(operation, t) { assert t.started; }
  }

  lemma HistoryOfUpdate(tasks: seq<TaskState>, u: TaskState)
    requires tasks != [] && SameTask(tasks[|tasks| - 1], u)
    ensures var t := tasks[|tasks| - 1];
            History(tasks[|tasks| - 1 := u]) ==
              History(tasks[..|tasks| - 1]) + Commands(t.group, t.node, ResolvedCount(u))
  {
    assert tasks[|tasks| - 1 := u][..|tasks| - 1] == tasks[..|tasks| - 1];
  }

  /** Only what a task is and how far it is matters to the history. */
  lemma {:induction false} HistorySame(a: seq<TaskState>, b: seq<TaskState>)
    requires |a| == |b|
    requires forall i :: 0 <= i < |a| ==> SameTask(a[i], b[i]) && ResolvedCount(a[i]) == ResolvedCount(b[i])
    ensures History(a) == History(b)
  {
    if a != [] { HistorySame(a[..|a| - 1], b[..|b| - 1]); }
  }

  lemma {:induction false} HistoryOfAppend(tasks: seq<TaskState>, spec: GroupSpec, node: string, mode: Mode)
    ensures History(tasks + [NewTask(spec, node, mode)]) == History(tasks)
  {
    assert (tasks + [NewTask(spec, node, mode)])[..|tasks|] == tasks;
  }

  lemma TaskStepHistory(cfg: Config, c: Cluster, i: nat, operation: OperationState, ok: bool, fault: Fault)
    requires Inv(cfg, c) && i < |c.tasks| && c.resolved == History(c.tasks)
    ensures var d := TaskReconciled(c, i, operation, ok, fault); d.resolved == History(d.tasks)
  {
    hide Planned, Slots, GroupsInOrder, LastGroup, TaskOk, TaskStep, ResolvedBy, RanBy, Commands, SameTask, Fits,
         ResolvedCount, TaskName;
    if !fault.patch {
      var t := c.tasks[i];
      StoredTaskOk(cfg, c, i);
      TaskStepKeepsTask(operation, t, ok);
      ResolvedStep(operation, t, ok);
      if i == |c.tasks| - 1 {
        HistoryOfUpdate(c.tasks, TaskStep(operation, t, ok));
      } else {
        NothingResolved(operation, t, ok);
        assert c.tasks[i := t] == c.tasks;
      }
    }
  }

  lemma NothingResolved(operation: OperationState, t: TaskState, ok: bool)
    requires t.completed
    ensures ResolvedBy(operation, t, ok) == []
  {
    hide TypedMode, TypedRecovery;
  }

  /** Reconciles of the operation and of groups leave the histories alone and only append groups and tasks. */
  lemma OperationFrame(cfg: Config, c: Cluster, groups: seq<GroupState>, fault: Fault)
    ensures var d := OperationReconciled(cfg, c, groups, fault);
            && d.tasks == c.tasks && d.ran == c.ran && d.resolved == c.resolved
            && (d.groups == c.groups || exists s :: d.groups == c.groups + [NewGroup(s)])
  {
    hide OperationNormal, GroupViews, GroupRefused;
  }

  lemma GroupFrame(cfg: Config, c: Cluster, i: nat, operation: OperationState, tasks: seq<TaskState>, fault: Fault)
    requires i < |c.groups|
    ensures var d := GroupReconciled(cfg, c, i, operation, tasks, fault);
            && d.operation == c.operation && |d.groups| == |c.groups| && d.ran == c.ran && d.resolved == c.resolved
            && d.daemonSet == c.daemonSet
            && (d.tasks == c.tasks || exists s, n, m :: d.tasks == c.tasks + [NewTask(s, n, m)])
  {
    hide GroupStep, TaskViews, TaskRefused, TypedMode, DesiredNodes, Listable, TasksOf, NewTask;
    var g := c.groups[i];
    if !g.completed && !fault.list && Listable(g.spec) {
      var w := TaskViews(DesiredNodes(cfg.nodes, g.spec), TasksOf(tasks, g.spec));
      var (g1, create) := GroupStep(operation, g, w);
      if create.Some? && !TaskRefused(c, TaskName(g.spec.name, create.value), fault) {
        assert GroupReconciled(cfg, c, i, operation, tasks, fault).tasks
            == c.tasks + [NewTask(g.spec, create.value, TypedMode(operation.mode))];
      }
    }
  }

  lemma StepHistory(cfg: Config, c: Cluster, e: Event)
    requires Inv(cfg, c) && c.resolved == History(c.tasks)
    ensures var d := Next(cfg, c, e); d.resolved == History(d.tasks)
  {
    hide InvOf, OperationReconciled, GroupReconciled, TaskReconciled, History, FindTask, FindGroup;
    match e
    case ReconcileOperation(groups, fault) => OperationFrame(cfg, c, groups, fault);
    case ReconcileGroup(name, operation, tasks, fault) =>
      var i := FindGroup(c.groups, name);
      if i < |c.groups| {
        GroupFrame(cfg, c, i, operation, tasks, fault);
        var d := GroupReconciled(cfg, c, i, operation, tasks, fault);
        if d.tasks != c.tasks {
          var s, n, m :| d.tasks == c.tasks + [NewTask(s, n, m)];
          HistoryOfAppend(c.tasks, s, n, m);
        }
      }
    case ReconcileTask(agent, name, operation, ok, fault) =>
      var i := FindTask(c.tasks, name);
      if i < |c.tasks| && c.tasks[i].node == agent { TaskStepHistory(cfg, c, i, operation, ok, fault); }
    case SetPaused(_) =>
    case SetRecovery(name, mode) =>
      var i := FindTask(c.tasks, name);
      if i < |c.tasks| { HistorySame(c.tasks, c.tasks[i := c.tasks[i].(recovery := mode)]); }
  }

  /** The history of a front of the slots is a prefix of the program of all of them. */
  lemma {:induction false} HistoryFollows(slots: seq<Slot>, tasks: seq<TaskState>)
    requires TasksInOrder(slots, tasks)
    ensures History(tasks) <= Program(slots)
    ensures |tasks| == |slots| && LastDone(tasks) ==> History(tasks) == Program(slots)
    decreases |slots|
  {
    hide TaskName;
    if slots != [] {
      var n, s := |slots| - 1, slots[|slots| - 1];
      if |tasks| <= n {
        HistoryFollows(slots[..n], tasks);
      } else {
        var t := tasks[n];
        assert Fits(t, s) && TaskOk(t);
        assert LastDone(tasks[..n]);
        HistoryFollows(slots[..n], tasks[..n]);
        CommandsPrefix(t.group, t.node, ResolvedCount(t), |t.commands|);
      }
    }
  }

  lemma CommandsPrefix(group: string, node: string, r: nat, n: nat)
    requires r <= n
    ensures Commands(group, node, r) <= Commands(group, node, n)
  {
  }

  lemma {:induction false} ProgramPrefix(a: seq<Slot>, b: seq<Slot>)
    requires a <= b
    ensures Program(a) <= Program(b)
    decreases |b|
  {
    if a != b {
      assert a <= b[..|b| - 1];
      ProgramPrefix(a, b[..|b| - 1]);
    }
  }

  lemma {:induction false} RunHistory(cfg: Config, states: seq<Cluster>, events: seq<Event>)
    requires ProperRun(cfg, states, events)
    ensures forall i :: 0 <= i <= |events| ==> states[i].resolved == History(states[i].tasks)
  {
    hide Planned, Inv, Next, SelectorsSingle, History, Evolves;
    if events == [] {
      NoHistory();
    } else {
      var n := |events| - 1;
      RunKeeps(cfg, states, events);
      RunPrefix(cfg, states, events);
      RunHistory(cfg, states[..n + 1], events[..n]);
      forall i | 0 <= i <= n ensures states[i].resolved == History(states[i].tasks) {
        assert states[..n + 1][i] == states[i];
      }
      StepHistory(cfg, states[n], events[n]);
    }
  }

  lemma NoHistory()
    ensures History([]) == []
  {
  }

  /**
   * Refinement: in every run the commands left behind are a prefix of the sequential program, and all of it at
   * completion.
   */
  lemma RunFollowsProgram(cfg: Config, states: seq<Cluster>, events: seq<Event>, i: nat)
    requires ProperRun(cfg, states, events) && i <= |events|
    ensures states[i].resolved <= Program(AllSlots(cfg))
    ensures states[i].operation.completed ==> states[i].resolved == Program(AllSlots(cfg))
  {
    hide Planned, Slots, Program, History, Next, SelectorsSingle, TasksInOrder, GroupsInOrder, Evolves;
    RunKeeps(cfg, states, events);
    RunHistory(cfg, states, events);
    var c := states[i];
    var k := |c.groups|;
    LastSpec(cfg, c);
    HistoryFollows(Slots(cfg, k), c.tasks);
    SlotsPrefix(cfg, k, |Planned(cfg)|);
    ProgramPrefix(Slots(cfg, k), AllSlots(cfg));
    if c.operation.completed { NoSlots(cfg); AllTasksThere(cfg, c); }
  }

  lemma AllTasksThere(cfg: Config, c: Cluster)
    requires Inv(cfg, c) && c.operation.completed
    ensures |c.groups| == |Planned(cfg)| && |c.tasks| == |AllSlots(cfg)| && LastDone(c.tasks)
  {
    hide Planned, Slots, GroupsInOrder;
    NoSlots(cfg);
  }

  // ---- serial and fail-stop ----

  /** Serial: only the last group and only the last task can be incomplete; and then that group is the task's. */
  lemma RunIsSerial(cfg: Config, states: seq<Cluster>, events: seq<Event>, i: nat)
    requires ProperRun(cfg, states, events) && i <= |events|
    ensures forall a :: 0 <= a < |states[i].groups| - 1 ==> states[i].groups[a].completed
    ensures forall a :: 0 <= a < |states[i].tasks| - 1 ==> states[i].tasks[a].completed
    ensures forall a :: 0 <= a < |states[i].tasks| && !states[i].tasks[a].completed ==>
              var k := |states[i].groups| - 1;
              k >= 0 && !states[i].groups[k].completed && states[i].tasks[a].group == states[i].groups[k].spec.name
  {
    hide Planned, Slots, Next, SelectorsSingle, Evolves, InvOf;
    RunKeeps(cfg, states, events);
    var c := states[i];
    OnlyLastCanBeIncomplete(cfg, c);
  }

  lemma OnlyLastCanBeIncomplete(cfg: Config, c: Cluster)
    requires Inv(cfg, c)
    ensures forall a :: 0 <= a < |c.groups| - 1 ==> c.groups[a].completed
    ensures forall a :: 0 <= a < |c.tasks| - 1 ==> c.tasks[a].completed
    ensures forall a :: 0 <= a < |c.tasks| && !c.tasks[a].completed ==>
              var k := |c.groups| - 1;
              k >= 0 && !c.groups[k].completed && c.tasks[a].group == c.groups[k].spec.name
  {
    hide Planned, Slots, TaskOk, TaskName;
    var k := |c.groups|;
    LastSpec(cfg, c);
    NoSlots(cfg);
    forall a | 0 <= a < |c.tasks| && !c.tasks[a].completed
      ensures k > 0 && !c.groups[k - 1].completed && c.tasks[a].group == c.groups[k - 1].spec.name
    {
      assert a == |c.tasks| - 1;
      assert Fits(c.tasks[a], Slots(cfg, k)[a]);
      assert |Slots(cfg, k - 1)| < |c.tasks|;
      SlotAt(cfg, k - 1, k, a);
    }
  }

  /** Fail-stop, one step: while a task is not completed nothing new is created, whatever was read. */
  lemma StepFailStop(cfg: Config, h: Cluster, c: Cluster, e: Event, a: nat)
    requires SelectorsSingle(cfg) && Inv(cfg, h) && Inv(cfg, c) && Evolves(h, c)
    requires ReadsListOf(h, e) && Timely(cfg, c, h, e)
    requires a < |c.tasks| && !c.tasks[a].completed
    ensures |Next(cfg, c, e).groups| == |c.groups| && |Next(cfg, c, e).tasks| == |c.tasks|
  {
    hide Planned, Slots, Next, SelectorsSingle, Evolves, InvOf, ReadsListOf, Timely;
    var d := Next(cfg, c, e);
    StepKeeps(cfg, h, c, e);
    NextAppends(cfg, c, e);
    OnlyLastCanBeIncomplete(cfg, d);
    OnlyLastCanBeIncomplete(cfg, c);
    if |d.groups| > |c.groups| { LateTask(cfg, d, a); }
  }

  /** A step appends at most one object, and then changes no task. */
  lemma NextAppends(cfg: Config, c: Cluster, e: Event)
    ensures var d := Next(cfg, c, e);
            && |c.groups| <= |d.groups| && |c.tasks| <= |d.tasks|
            && (|d.groups| > |c.groups| ==>
                  d.tasks == c.tasks && |d.groups| == |c.groups| + 1 && !d.groups[|c.groups|].started)
            && (|d.tasks| > |c.tasks| ==>
                |d.groups| == |c.groups| && |d.tasks| == |c.tasks| + 1 && d.tasks[..|c.tasks|] == c.tasks)
  {
    hide OperationReconciled, GroupReconciled, TaskStep, RanBy, ResolvedBy, FindTask, FindGroup, NewTask;
    match e
    case ReconcileOperation(groups, fault) => OperationFrame(cfg, c, groups, fault);
    case ReconcileGroup(name, operation, tasks, fault) =>
      var i := FindGroup(c.groups, name);
      if i < |c.groups| { GroupFrame(cfg, c, i, operation, tasks, fault); }
    case _ =>
  }

  /** An incomplete task cannot be from before the last group. */
  lemma LateTask(cfg: Config, c: Cluster, a: nat)
    requires Inv(cfg, c) && a < |c.tasks| && !c.tasks[a].completed
    ensures c.groups != [] && c.groups[|c.groups| - 1].started
  {
    hide Planned, Slots, GroupsInOrder;
    NoSlots(cfg);
  }

  /** Fail-stop: in any run, while a task is failed, recovering, running or pending, no group and no task is created. */
  lemma RunFailStop(cfg: Config, states: seq<Cluster>, events: seq<Event>, i: nat, a: nat)
    requires ProperRun(cfg, states, events) && i < |events|
    requires a < |states[i].tasks| && !states[i].tasks[a].completed
    ensures |states[i + 1].groups| == |states[i].groups| && |states[i + 1].tasks| == |states[i].tasks|
  {
    hide Planned, Inv, Next, SelectorsSingle, Evolves, Reads, ReadsInTime, ReadsListOf, Timely;
    RunKeeps(cfg, states, events);
    var m := ReadInTime(cfg, states[..i + 1], states[i], events[i]);
    StepFailStop(cfg, states[m], states[i], events[i], a);
  }

  // ---- completion ----

  /** Every planned group is there and done; every slot has its one task, done, its cursor on the last command. */
  ghost predicate AllDone(cfg: Config, c: Cluster)
  {
    && |c.groups| == |Planned(cfg)|
    && (forall i :: 0 <= i < |c.groups| ==>
          c.groups[i].spec == Planned(cfg)[i] && c.groups[i].completed && c.groups[i].error.None?)
    && |c.tasks| == |AllSlots(cfg)|
    && (forall j :: 0 <= j < |c.tasks| ==>
          Fits(c.tasks[j], AllSlots(cfg)[j]) && c.tasks[j].completed && c.tasks[j].error.None?
          && c.tasks[j].cursor == Max1(|c.tasks[j].commands|))
  }

  lemma CompletedIsDone(cfg: Config, c: Cluster)
    requires Inv(cfg, c) && c.operation.completed
    ensures AllDone(cfg, c) && c.operation.error.None?
  {
    hide Planned, Slots, Fits;
    AllTasksThere(cfg, c);
    LastSpec(cfg, c);
  }

  /** After completion only the user's own fields change. */
  ghost predicate Settled(a: Cluster, b: Cluster)
  {
    && b.groups == a.groups
    && b.operation == a.operation.(specPaused := b.operation.specPaused)
    && |b.tasks| == |a.tasks|
    && (forall j :: 0 <= j < |a.tasks| ==> b.tasks[j] == a.tasks[j].(recovery := b.tasks[j].recovery))
    && b.resolved == a.resolved && b.ran == a.ran
  }

  lemma CompletedRunsNothing(cfg: Config, c: Cluster, e: Event)
    requires Inv(cfg, c) && c.operation.completed
    ensures Next(cfg, c, e).ran == c.ran
  {
    hide Planned, InvOf, OperationReconciled, GroupReconciled, TaskStep, ResolvedBy, FindGroup, FindTask, Fits,
         AllSlots, TypedMode, TypedRecovery;
    CompletedIsDone(cfg, c);
    match e
    case ReconcileOperation(groups, fault) => OperationFrame(cfg, c, groups, fault);
    case ReconcileGroup(name, operation, tasks, fault) =>
      var i := FindGroup(c.groups, name);
      if i < |c.groups| { GroupFrame(cfg, c, i, operation, tasks, fault); }
    case ReconcileTask(_, _, _, _, _) =>
    case SetPaused(_) =>
    case SetRecovery(_, _) =>
  }

  lemma {:induction false} RanStays(cfg: Config, states: seq<Cluster>, events: seq<Event>, i: nat, j: nat)
    requires ProperRun(cfg, states, events) && i <= j <= |events| && states[i].operation.completed
    ensures states[j].ran == states[i].ran
    decreases j
  {
    hide Planned, Inv, Next, Reads, ReadsInTime, Initial, SelectorsSingle, GroupsEvolve, TasksEvolve;
    if i < j {
      RanStays(cfg, states, events, i, j - 1);
      RunKeeps(cfg, states, events);
      assert Evolves(states[i], states[j - 1]);
      CompletedRunsNothing(cfg, states[j - 1], events[j - 1]);
    }
  }

  /** Completion is sound, and nothing a controller does later changes it. */
  lemma RunCompletionIsFinal(cfg: Config, states: seq<Cluster>, events: seq<Event>, i: nat, j: nat)
    requires ProperRun(cfg, states, events) && i <= j <= |events|
    requires states[i].operation.completed
    ensures AllDone(cfg, states[i]) && states[i].operation.error.None?
    ensures Settled(states[i], states[j])
  {
    hide Planned, InvOf, Next, SelectorsSingle, Program, Slots;
    RunKeeps(cfg, states, events);
    var a, b := states[i], states[j];
    CompletedIsDone(cfg, a);
    assert Evolves(a, b);
    CompletedIsDone(cfg, b);
    RunFollowsProgram(cfg, states, events, i);
    RunFollowsProgram(cfg, states, events, j);
    RanStays(cfg, states, events, i, j);
    SameGroups(a.groups, b.groups);
  }

  lemma SameGroups(a: seq<GroupState>, b: seq<GroupState>)
    requires GroupsEvolve(a, b) && |a| == |b| && forall i :: 0 <= i < |a| ==> a[i].completed
    ensures a == b
  {
  }

  // ---- the command lookup ----

  /** In every run the cursor of a started task is in range, or the task has no command at all. */
  lemma RunCursorInRange(cfg: Config, states: seq<Cluster>, events: seq<Event>, i: nat, j: nat)
    requires ProperRun(cfg, states, events) && i <= |events| && j < |states[i].tasks|
    requires states[i].tasks[j].started
    ensures InRange(states[i].tasks[j]) <==> states[i].tasks[j].commands != []
  {
    hide Planned, Inv, Next, SelectorsSingle, Evolves, Reads, ReadsInTime;
    RunKeeps(cfg, states, events);
    StoredTaskOk(cfg, states[i], j);
  }

  /** The agent dies in a reconcile exactly when it is about to execute a task that has no command. */
  lemma PanicsExactly(operation: OperationState, t: TaskState)
    requires TaskOk(t)
    ensures Panics(operation, t) <==>
              t.commands == [] && t.started && !t.completed && !Recovers(t) && !operation.paused
                && TypedMode(operation.mode) != DryRun
  {
    hide TypedMode, TypedRecovery;
  }

  // ---- failed tasks and recovery ----

  /**
   * A failed task with no recovery chosen is run again exactly when nothing else keeps it from running: the operation
   * is not paused, it is not a dry run and there is a command. A success then leaves its error in place unless it was
   * the last command.
   */
  lemma FailedTaskRunsAgain(operation: OperationState, t: TaskState, ok: bool)
    requires TaskOk(t) && IsFailed(t)
    ensures RanBy(operation, t) != [] <==> !operation.paused && TypedMode(operation.mode) != DryRun && t.commands != []
    ensures RanBy(operation, t) != [] ==>
              var u := TaskStep(operation, t, ok);
              && RanBy(operation, t) == [Current(t)]
              && (u.error.Some? <==> !ok || t.cursor < |t.commands|)
              && (ok && t.cursor < |t.commands| ==> u.error == t.error && u.cursor == t.cursor + 1)
              && (!ok ==> u.error == Some(ExecutionError(t.cursor)) && u.cursor == t.cursor)
  {
    hide TypedMode, TypedRecovery;
  }

  lemma RetryStays(operation: OperationState, t: TaskState, ok: bool)
    requires TaskOk(t) && !t.completed && t.error.Some? && t.recovery == "RetryFailedCommand"
    ensures var u := TaskStep(operation, t, ok);
            && u == t.(error := None, recovery := "", paused := operation.paused, phase := u.phase)
            && RanBy(operation, t) == [] && ResolvedBy(operation, t, ok) == []
  {
    hide TypedMode;
    assert TypedRecovery(t.recovery) == RetryFailedCommand;
  }

  lemma SkipMovesOn(operation: OperationState, t: TaskState, ok: bool)
    requires TaskOk(t) && !t.completed && t.error.Some? && t.recovery == "SkipFailedCommand"
    ensures var u := TaskStep(operation, t, ok);
            && u.recovery == "" && u.error.None? && SameTask(t, u) && u.started
            && (u.completed <==> t.cursor >= |t.commands|)
            && u.cursor == (if u.completed then t.cursor else t.cursor + 1)
            && RanBy(operation, t) == []
            && ResolvedBy(operation, t, ok) == (if t.commands == [] then [] else [Current(t)])
  {
    hide TypedMode;
    assert TypedRecovery(t.recovery) == SkipFailedCommand;
  }

  lemma OtherIsNoChoice(operation: OperationState, t: TaskState, ok: bool)
    requires TaskOk(t) && !t.completed && t.recovery != "RetryFailedCommand" && t.recovery != "SkipFailedCommand"
    ensures var u := TaskStep(operation, t, ok);
            && u.recovery == t.recovery && (IsFailed(t) <==> t.error.Some?)
            && (u.error.None? && t.error.Some? ==> RanBy(operation, t) == [Current(t)] || operation.mode == "DryRun")
  {
    assert TypedRecovery(t.recovery) == UnknownStrategy;
    if operation.paused {
    } else if !t.started {
    } else {
    }
  }

  /**
   * A recovery choice is used exactly once, by a reconcile of a task with an error, which runs nothing: "retry" leaves
   * the task at its command, "skip" leaves that command behind. Any other string is no choice at all.
   */
  lemma RecoveryIsConsumed(operation: OperationState, t: TaskState, ok: bool)
    requires TaskOk(t) && !t.completed
    ensures var u := TaskStep(operation, t, ok);
            var ran, left := RanBy(operation, t), ResolvedBy(operation, t, ok);
            && (t.error.None? ==> u.recovery == t.recovery)
            && (t.error.Some? && t.recovery == "RetryFailedCommand" ==>
                  && u == t.(error := None, recovery := "", paused := operation.paused, phase := u.phase)
                  && ran == [] && left == [] && ResolvedCount(u) == ResolvedCount(t))
            && (t.error.Some? && t.recovery == "SkipFailedCommand" ==>
                  && u.recovery == "" && u.error.None? && ran == [] && SameTask(t, u) && u.started
                  && (u.completed <==> t.cursor >= |t.commands|)
                  && u.cursor == (if u.completed then t.cursor else t.cursor + 1)
                  && left == (if t.commands == [] then [] else [Current(t)])
                  && ResolvedCount(u) == ResolvedCount(t) + |left|)
            && (t.recovery != "RetryFailedCommand" && t.recovery != "SkipFailedCommand" ==>
                  && u.recovery == t.recovery && (IsFailed(t) <==> t.error.Some?)
                  && (u.error.None? && t.error.Some? ==> ran == [Current(t)] || operation.mode == "DryRun"))
  {
    hide TaskStep, RanBy, ResolvedBy, TypedRecovery;
    if t.error.None? {
      NothingToRecover(operation, t, ok);
    } else if t.recovery == "RetryFailedCommand" {
      RetryStays(operation, t, ok);
    } else if t.recovery == "SkipFailedCommand" {
      SkipMovesOn(operation, t, ok);
    }
    if t.recovery != "RetryFailedCommand" && t.recovery != "SkipFailedCommand" { OtherIsNoChoice(operation, t, ok); }
  }

  lemma NothingToRecover(operation: OperationState, t: TaskState, ok: bool)
    requires !t.completed && t.error.None?
    ensures TaskStep(operation, t, ok).recovery == t.recovery
  {
    hide TypedMode, TypedRecovery;
  }
}
