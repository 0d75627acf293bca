/** How many steps a run takes, and when it can complete on its own. */
module Progress {
  import opened Names
  import opened Api
  import opened Matching
  import opened Machine
  import opened Schedule
  import opened Safety
  import opened Guarantees
  import opened Modes

  // ---- work done and work to do ----

  function Flag(b: bool): nat { if b then 1 else 0 }

  /** Created, started, and one step per command. */
  function TaskWork(t: TaskState): nat
  {
    1 + Flag(t.started) + (if t.completed then Max1(|t.commands|) else if t.cursor == 0 then 0 else t.cursor - 1)
  }

  function TasksWork(tasks: seq<TaskState>): nat
  {
    if tasks == [] then 0 else TasksWork(tasks[..|tasks| - 1]) + TaskWork(tasks[|tasks| - 1])
  }

  /** Created, started, completed. */
  function GroupWork(g: GroupState): nat { 1 + Flag(g.started) + Flag(g.completed) }

  function GroupsWork(groups: seq<GroupState>): nat
  {
    if groups == [] then 0 else GroupsWork(groups[..|groups| - 1]) + GroupWork(groups[|groups| - 1])
  }

  function Done(c: Cluster): nat
  {
    Flag(c.operation.started) + Flag(c.operation.completed) + GroupsWork(c.groups) + TasksWork(c.tasks)
  }

  function SlotsWork(slots: seq<Slot>): nat
  {
    if slots == [] then 0 else SlotsWork(slots[..|slots| - 1]) + 2 + Max1(|slots[|slots| - 1].spec.commands|)
  }

  /** Three for the group, and for each of its `n` tasks two and one per command. */
  function GroupTotal(spec: GroupSpec, n: nat): nat
  {
    3 + n * (2 + Max1(|spec.commands|))
  }

  /** Two for the operation, and what is to do for each group and the tasks it makes. */
  function TotalOf(cfg: Config, k: nat): nat
    requires k <= |Planned(cfg)|
  {
    if k == 0 then 2 else TotalOf(cfg, k - 1) + GroupTotal(Planned(cfg)[k - 1], |Made(cfg, k - 1)|)
  }

  function Total(cfg: Config): nat { TotalOf(cfg, |Planned(cfg)|) }

  // ---- sums ----

  lemma {:induction false} TasksWorkUpdate(tasks: seq<TaskState>, i: nat, t: TaskState)
    requires i < |tasks|
    ensures TasksWork(tasks[i := t]) == TasksWork(tasks) - TaskWork(tasks[i]) + TaskWork(t)
  {
    hide TaskWork;
    var n := |tasks| - 1;
    if i == n {
      assert tasks[i := t][..n] == tasks[..n];
    } else {
      TasksWorkUpdate(tasks[..n], i, t);
      assert tasks[i := t][..n] == tasks[..n][i := t];
    }
  }

  lemma {:induction false} GroupsWorkUpdate(groups: seq<GroupState>, i: nat, g: GroupState)
    requires i < |groups|
    ensures GroupsWork(groups[i := g]) == GroupsWork(groups) - GroupWork(groups[i]) + GroupWork(g)
  {
    hide GroupWork;
    var n := |groups| - 1;
    if i == n {
      assert groups[i := g][..n] == groups[..n];
    } else {
      GroupsWorkUpdate(groups[..n], i, g);
      assert groups[i := g][..n] == groups[..n][i := g];
    }
  }

  lemma {:induction false} TasksWorkAppend(tasks: seq<TaskState>, t: TaskState)
    ensures TasksWork(tasks + [t]) == TasksWork(tasks) + TaskWork(t)
  {
    hide TaskWork;
    assert (tasks + [t])[..|tasks|] == tasks;
  }

  lemma {:induction false} GroupsWorkAppend(groups: seq<GroupState>, g: GroupState)
    ensures GroupsWork(groups + [g]) == GroupsWork(groups) + GroupWork(g)
  {
    hide GroupWork;
    assert (groups + [g])[..|groups|] == groups;
  }

  lemma {:induction false} SlotsWorkAppend(a: seq<Slot>, b: seq<Slot>)
    ensures SlotsWork(a + b) == SlotsWork(a) + SlotsWork(b)
  {
    if b == [] {
      assert a + b == a;
    } else {
      SlotsWorkAppend(a, b[..|b| - 1]);
      assert (a + b)[..|a + b| - 1] == a + b[..|b| - 1];
    }
  }

  lemma {:induction false} UniformWork(slots: seq<Slot>, spec: GroupSpec)
    requires forall i :: 0 <= i < |slots| ==> slots[i].spec == spec
    ensures SlotsWork(slots) == |slots| * (2 + Max1(|spec.commands|))
  {
    hide Max1;
    if slots != [] {
      UniformWork(slots[..|slots| - 1], spec);
      Distributes(|slots| - 1, 2 + Max1(|spec.commands|));
    }
  }

  lemma Distributes(n: nat, w: nat)
    ensures n * w + w == (n + 1) * w
  {
  }

  lemma {:induction false} TotalIsSlotsWork(cfg: Config, k: nat)
    requires k <= |Planned(cfg)|
    ensures TotalOf(cfg, k) == 2 + 3 * k + SlotsWork(Slots(cfg, k))
  {
    hide Planned, Made, Max1, SlotsWork;
    if k == 0 {
      NoWork();
    } else {
      TotalIsSlotsWork(cfg, k - 1);
      var p := Planned(cfg)[k - 1];
      SlotsWorkAppend(Slots(cfg, k - 1), SlotsOf(cfg, k - 1));
      UniformWork(SlotsOf(cfg, k - 1), p);
    }
  }

  lemma NoWork()
    ensures SlotsWork([]) == 0
  {
  }

  // ---- every step does at most one unit of work ----

  lemma TaskStepWork(operation: OperationState, t: TaskState, ok: bool)
    requires TaskOk(t)
    ensures TaskWork(t) <= TaskWork(TaskStep(operation, t, ok)) <= TaskWork(t) + 1
  {
    hide TypedMode, TypedRecovery;
    if t.completed {
    } else if Recovers(t) {
    } else if operation.paused {
    } else if !t.started {
    } else {
    }
  }

  lemma OperationNormalWork(desired: seq<GroupSpec>, groups: seq<GroupState>, o: OperationState)
    requires !o.completed
    ensures var (o1, create) := OperationNormal(GroupViews(desired, groups), o);
            && Flag(o.started) + Flag(o.completed) <= Flag(o1.started) + Flag(o1.completed)
            && Flag(o1.started) + Flag(o1.completed) + Flag(create.Some?) <= Flag(o.started) + Flag(o.completed) + 1
  {
    hide MatchGroups, GroupClass;
    ViewsPartition(GroupClass, MatchGroups(desired, groups));
  }

  lemma OperationPlansWork(cfg: Config, c: Cluster, o: OperationState, groups: seq<GroupState>, fault: Fault)
    requires !o.completed && !c.operation.completed && c.operation.started == o.started
    ensures Done(c) <= Done(OperationPlans(cfg, c, o, groups, fault)) <= Done(c) + 1
  {
    hide OperationNormal, GroupViews, GroupRefused, TasksWork, GroupsWork;
    var w := GroupViews(cfg.desired, groups);
    OperationNormalWork(cfg.desired, groups, o.(counters := w.Counters()));
    var (o1, create) := OperationNormal(w, o.(counters := w.Counters()));
    if create.Some? { GroupsWorkAppend(c.groups, NewGroup(create.value)); }
  }

  lemma OperationStepWork(cfg: Config, c: Cluster, groups: seq<GroupState>, fault: Fault)
    ensures Done(c) <= Done(OperationReconciled(cfg, c, groups, fault)) <= Done(c) + 1
  {
    hide OperationPlans, TasksWork, GroupsWork, DaemonSetShouldBeRunning;
    var o := c.operation.(paused := c.operation.specPaused);
    if !c.operation.completed {
      OperationPlansWork(cfg, c.(daemonSet := DaemonSetShouldBeRunning(o)), o, groups, fault);
    }
  }

  lemma GroupNormalWork(w: Views<TaskItem>, g: GroupState)
    requires !g.completed
    ensures var (g1, create) := GroupNormal(w, g);
            GroupWork(g) <= GroupWork(g1) && GroupWork(g1) + Flag(create.Some?) <= GroupWork(g) + 1
  {
  }

  lemma GroupActsWork(c: Cluster, i: nat, g: GroupState, create: Option<string>, mode: Mode, fault: Fault)
    requires i < |c.groups|
    requires GroupWork(c.groups[i]) <= GroupWork(g) && GroupWork(g) + Flag(create.Some?) <= GroupWork(c.groups[i]) + 1
    ensures Done(c) <= Done(GroupActs(c, i, g, create, mode, fault)) <= Done(c) + 1
  {
    hide TaskRefused, TasksWork, GroupsWork, TaskName, TaskWork, GroupWork, NewTask, PhasedGroup;
    GroupsWorkUpdate(c.groups, i, g);
    GroupsWorkUpdate(c.groups, i, PhasedGroup(g));
    PhaseIsNoWork(g);
    if create.None? {
    } else if TaskRefused(c, TaskName(c.groups[i].spec.name, create.value), fault) {
    } else {
      NewTaskWork(c.groups[i].spec, create.value, mode);
      TasksWorkAppend(c.tasks, NewTask(c.groups[i].spec, create.value, mode));
    }
  }

  lemma PhaseIsNoWork(g: GroupState)
    ensures GroupWork(PhasedGroup(g)) == GroupWork(g)
  {
  }

  lemma NewTaskWork(spec: GroupSpec, node: string, mode: Mode)
    ensures TaskWork(NewTask(spec, node, mode)) == 1
  {
  }

  lemma GroupStepWork(cfg: Config, c: Cluster, i: nat, operation: OperationState, tasks: seq<TaskState>, fault: Fault)
    requires i < |c.groups|
    ensures Done(c) <= Done(GroupReconciled(cfg, c, i, operation, tasks, fault)) <= Done(c) + 1
  {
    hide TaskViews, DesiredNodes, Listable, TasksOf, TypedMode, TasksWork, GroupsWork, GroupNormal, GroupActs;
    var g := c.groups[i];
    if !g.completed {
      GroupsWorkUpdate(c.groups, i, g.(paused := operation.paused));
      var w := TaskViews(DesiredNodes(cfg.nodes, g.spec), TasksOf(tasks, g.spec));
      var g0 := g.(paused := operation.paused, counters := w.Counters());
      GroupNormalWork(w, g0);
      var (g1, create) := GroupStep(operation, g, w);
      assert GroupWork(g0) == GroupWork(g);
      if !fault.list { GroupActsWork(c, i, g1, create, TypedMode(operation.mode), fault); }
    }
  }

  /** No step undoes work, and no step does two units of it. */
  lemma StepWork(cfg: Config, c: Cluster, e: Event)
    requires Inv(cfg, c)
    ensures Done(c) <= Done(Next(cfg, c, e)) <= Done(c) + 1
  {
    hide InvOf, OperationReconciled, GroupReconciled, FindGroup, FindTask, TaskStep, RanBy, ResolvedBy, TasksWork,
         TaskWork;
    match e
    case ReconcileOperation(groups, fault) => OperationStepWork(cfg, c, groups, fault);
    case ReconcileGroup(name, operation, tasks, fault) =>
      var i := FindGroup(c.groups, name);
      if i < |c.groups| { GroupStepWork(cfg, c, i, operation, tasks, fault); }
    case ReconcileTask(agent, name, operation, ok, fault) =>
      var i := FindTask(c.tasks, name);
      if i < |c.tasks| {
        StoredTaskOk(cfg, c, i);
        TaskStepWork(operation, c.tasks[i], ok);
        TasksWorkUpdate(c.tasks, i, TaskStep(operation, c.tasks[i], ok));
      }
    case SetPaused(_) =>
    case SetRecovery(name, mode) =>
      var i := FindTask(c.tasks, name);
      if i < |c.tasks| {
        RecoveryIsNoWork(c.tasks[i], mode);
        TasksWorkUpdate(c.tasks, i, c.tasks[i].(recovery := mode));
      }
  }

  lemma RecoveryIsNoWork(t: TaskState, mode: string)
    ensures TaskWork(t.(recovery := mode)) == TaskWork(t)
  {
  }

  // ---- the work is all done exactly when the operation is completed ----

  lemma {:induction false} TasksWorkBound(slots: seq<Slot>, tasks: seq<TaskState>)
    requires TasksInOrder(slots, tasks)
    ensures TasksWork(tasks) <= SlotsWork(slots)
    ensures TasksWork(tasks) == SlotsWork(slots) <==> |tasks| == |slots| && LastDone(tasks)
    decreases |slots|
  {
    hide TaskName;
    if slots != [] {
      var n, s := |slots| - 1, slots[|slots| - 1];
      if |tasks| <= n {
        TasksWorkBound(slots[..n], tasks);
      } else {
        var t := tasks[n];
        assert Fits(t, s) && TaskOk(t);
        assert LastDone(tasks[..n]);
        TasksWorkBound(slots[..n], tasks[..n]);
      }
    }
  }

  lemma {:induction false} GroupsWorkBound(groups: seq<GroupState>)
    requires forall i :: 0 <= i < |groups| ==> GroupOk(groups[i])
    requires forall i :: 0 <= i < |groups| - 1 ==> groups[i].completed
    ensures GroupsWork(groups) <= 3 * |groups|
    ensures GroupsWork(groups) == 3 * |groups| <==> groups == [] || groups[|groups| - 1].completed
  {
    if groups != [] { GroupsWorkBound(groups[..|groups| - 1]); }
  }

  lemma {:induction false} SlotsWorkPrefix(a: seq<Slot>, b: seq<Slot>)
    requires a <= b
    ensures SlotsWork(a) <= SlotsWork(b)
    ensures SlotsWork(a) == SlotsWork(b) <==> a == b
    decreases |b|
  {
    if a != b {
      assert a <= b[..|b| - 1];
      SlotsWorkPrefix(a, b[..|b| - 1]);
    }
  }

  lemma AllWorkDone(cfg: Config, c: Cluster)
    requires Inv(cfg, c)
    ensures Done(c) <= Total(cfg)
    ensures Done(c) == Total(cfg) <==> c.operation.completed
  {
    hide Planned, Slots, TasksWork, GroupsWork, SlotsWork, TotalOf, LastGroup, TasksInOrder;
    var k, n := |c.groups|, |Planned(cfg)|;
    LastSpec(cfg, c);
    TotalIsSlotsWork(cfg, n);
    TasksWorkBound(Slots(cfg, k), c.tasks);
    GroupsWorkBound(c.groups);
    SlotsPrefix(cfg, k, n);
    SlotsWorkPrefix(Slots(cfg, k), Slots(cfg, n));
    if c.operation.completed { AllTasksThere(cfg, c); }
  }

  // ---- exact count over runs ----

  /** How many steps of a run did a unit of work. */
  function WorkingSteps(states: seq<Cluster>): nat
  {
    if |states| <= 1 then 0
    else
      var n := |states| - 1;
      WorkingSteps(states[..n]) + Flag(Done(states[n]) > Done(states[n - 1]))
  }

  lemma {:induction false} RunWorkingSteps(cfg: Config, states: seq<Cluster>, events: seq<Event>)
    requires ProperRun(cfg, states, events)
    ensures WorkingSteps(states) == Done(states[|events|])
  {
    hide Planned, Inv, Next, SelectorsSingle, Evolves, Reads, ReadsInTime, Done;
    RunKeeps(cfg, states, events);
    if events == [] {
      InitialWork(states[0]);
    } else {
      var n := |events| - 1;
      RunPrefix(cfg, states, events);
      RunWorkingSteps(cfg, states[..n + 1], events[..n]);
      StepWork(cfg, states[n], events[n]);
    }
  }

  lemma InitialWork(c: Cluster)
    requires Initial(c)
    ensures Done(c) == 0
  {
  }

  /**
   * Exact count: however a run got there, with retries, skips, pauses, stale reads and failed calls,
   * exactly `Total` of its steps did work when the operation is completed, and fewer as long as it is not.
   */
  lemma {:induction false} RunExactCount(cfg: Config, states: seq<Cluster>, events: seq<Event>)
    requires ProperRun(cfg, states, events)
    ensures WorkingSteps(states) <= Total(cfg)
    ensures WorkingSteps(states) == Total(cfg) <==> states[|events|].operation.completed
  {
    hide Planned, Inv, Next, SelectorsSingle, Evolves, Reads, ReadsInTime, Done, Total, WorkingSteps;
    RunKeeps(cfg, states, events);
    RunWorkingSteps(cfg, states, events);
    AllWorkDone(cfg, states[|events|]);
  }
}
