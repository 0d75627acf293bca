/** What the status tells the user: phases, counters, and the agents that are left running. */
module Reports {
  import opened Names
  import opened Api
  import opened Matching
  import opened Machine
  import opened Schedule
  import opened Safety
  import opened Guarantees

  // ---- phases and counters ----

  predicate AllOf(n: nat, c: Counters) { c == Counters(n, 0, n, 0, 0) }

  /** The phase says "succeeded" exactly of a completed task. */
  predicate TaskTells(t: TaskState)
  {
    t.phase == PhaseSucceeded <==> t.completed
  }

  /** The same for a group; and when it is completed its counters say that each of its nodes has a completed task. */
  predicate GroupTells(cfg: Config, g: GroupState)
  {
    (g.phase == PhaseSucceeded <==> g.completed) && (g.completed ==> AllOf(|NodesOf(cfg, g.spec)|, g.counters))
  }

  predicate OperationTells(cfg: Config, o: OperationState)
  {
    (o.phase == PhaseSucceeded <==> o.completed) && (o.completed ==> AllOf(|Planned(cfg)|, o.counters))
  }

  ghost predicate Tells(cfg: Config, c: Cluster)
  {
    && OperationTells(cfg, c.operation)
    && (forall i :: 0 <= i < |c.groups| ==> GroupTells(cfg, c.groups[i]))
    && (forall j :: 0 <= j < |c.tasks| ==> TaskTells(c.tasks[j]))
  }

  lemma TaskStepTells(operation: OperationState, t: TaskState, ok: bool)
    requires TaskOk(t) && TaskTells(t)
    ensures TaskTells(TaskStep(operation, t, ok))
  {
    hide TypedRecovery, TypedMode, Recovered, TaskNormal, TaskOk;
    TaskStepKeepsTask(operation, t, ok);
    if !t.completed { TaskStepPhase(operation, t, ok); }
  }

  /** A task is only completed in a reconcile that goes on to set the phase. */
  lemma TaskStepPhase(operation: OperationState, t: TaskState, ok: bool)
    requires TaskOk(t) && !t.completed && t.phase != PhaseSucceeded
    ensures var u := TaskStep(operation, t, ok);
            u.phase == PhaseSucceeded <==> u.completed
  {
    hide TypedRecovery, TypedMode;
    if Recovers(t) {
    } else if operation.paused {
    } else if !t.started {
    } else if Panics(operation, t) {
    } else {
    }
  }

  /** Views that are all completed are of `n` items and nothing else. */
  predicate FullIsDone(w: Views<TaskItem>, n: nat)
  {
    |w.completed| == |w.all| ==> |w.all| == n && |w.running| == |w.failed| == |w.invalid| == 0
  }

  lemma GroupStepTells(cfg: Config, operation: OperationState, g: GroupState, w: Views<TaskItem>)
    requires GroupTells(cfg, g) && GroupOk(g) && !g.completed && FullIsDone(w, |NodesOf(cfg, g.spec)|)
    ensures var (g1, create) := GroupStep(operation, g, w);
            GroupTells(cfg, PhasedGroup(g1)) && (create.Some? ==> GroupTells(cfg, g1))
  {
    hide NodesOf;
  }

  lemma OperationNormalTells(cfg: Config, o: OperationState, w: Views<GroupItem>)
    requires o.phase != PhaseSucceeded && OperationOk(o) && !o.completed && |w.all| == |Planned(cfg)|
        && o.counters == w.Counters()
    requires |w.completed| == |w.all| ==> |w.tobeCreated| == |w.running| == |w.failed| == |w.invalid| == 0
    ensures var (o1, create) := OperationNormal(w, o);
            OperationTells(cfg, PhasedOperation(o1)) && (create.Some? ==> OperationTells(cfg, o1))
  {
    hide Planned;
  }

  lemma NewGroupTells(cfg: Config, spec: GroupSpec)
    ensures GroupTells(cfg, NewGroup(spec))
  {
  }

  lemma NewTaskTells(spec: GroupSpec, node: string, mode: Mode)
    ensures TaskTells(NewTask(spec, node, mode))
  {
  }

  // ---- one step ----

  lemma OperationPlansTells(cfg: Config, h: Cluster, c: Cluster, o: OperationState, fault: Fault)
    requires Inv(cfg, h) && Tells(cfg, c) && OperationOk(o) && !o.completed && o.phase != PhaseSucceeded
    ensures Tells(cfg, OperationPlans(cfg, c, o, h.groups, fault))
  {
    hide Planned, InvOf, OperationNormal, GroupViews, GroupsInOrder, GroupRefused, PhasedOperation, OperationTells,
         GroupTells, TaskTells, NewGroup;
    InOrder(cfg, h);
    var w := OperationSees(cfg, h.groups);
    GroupViewsPartition(cfg.desired, h.groups);
    OperationNormalTells(cfg, o.(counters := w.Counters()), w);
    var (o1, create) := OperationNormal(w, o.(counters := w.Counters()));
    if create.Some? { NewGroupTells(cfg, create.value); }
  }

  lemma GroupViewsPartition(desired: seq<GroupSpec>, groups: seq<GroupState>)
    ensures var w := GroupViews(desired, groups);
            |w.completed| == |w.all| ==> |w.tobeCreated| == |w.running| == |w.failed| == |w.invalid| == 0
  {
    hide MatchGroups, GroupClass;
    ViewsPartition(GroupClass, MatchGroups(desired, groups));
  }

  lemma TaskViewsPartition(nodes: seq<Node>, tasks: seq<TaskState>)
    ensures var w := TaskViews(nodes, tasks);
            |w.completed| == |w.all| ==> |w.running| == |w.failed| == |w.invalid| == 0
  {
    hide MatchTasks, TaskClass;
    ViewsPartition(TaskClass, MatchTasks(nodes, tasks));
  }

  lemma OperationStepTells(cfg: Config, h: Cluster, c: Cluster, fault: Fault)
    requires Inv(cfg, h) && Inv(cfg, c) && Tells(cfg, c)
    ensures Tells(cfg, OperationReconciled(cfg, c, h.groups, fault))
  {
    hide Planned, InvOf, OperationPlans, DaemonSetShouldBeRunning, GroupTells, TaskTells;
    OperationStays(cfg, c);
    if !c.operation.completed {
      var o := c.operation.(paused := c.operation.specPaused);
      OperationPlansTells(cfg, h, c.(daemonSet := DaemonSetShouldBeRunning(o)), o, fault);
    }
  }

  lemma GroupActsTells(cfg: Config, c: Cluster, i: nat, g: GroupState, create: Option<string>, mode: Mode, fault: Fault)
    requires i < |c.groups| && Tells(cfg, c) && GroupTells(cfg, PhasedGroup(g)) && (create.Some? ==> GroupTells(cfg, g))
    ensures Tells(cfg, GroupActs(c, i, g, create, mode, fault))
  {
    hide TaskRefused, TaskName, NewTask, PhasedGroup, GroupTells, TaskTells, OperationTells;
    if create.Some? { NewTaskTells(c.groups[i].spec, create.value, mode); }
  }

  lemma FullViews(cfg: Config, h: Cluster, i: nat)
    requires SelectorsSingle(cfg) && Inv(cfg, h) && i < |Planned(cfg)| && |h.groups| <= i + 1
    requires Listable(Planned(cfg)[i]) && LenderDone(cfg, h.groups, i)
    ensures var p := Planned(cfg)[i];
            FullIsDone(TaskViews(DesiredNodes(cfg.nodes, p), TasksOf(h.tasks, p)), |NodesOf(cfg, p)|)
  {
    hide Planned, InvOf, SelectorsSingle, Listable, TasksOf, TaskViews, DesiredNodes, NodesOf, Borrowed, Made, Listed,
         FindsOwn, LenderDone, Missing;
    var p := Planned(cfg)[i];
    TaskViewsPartition(DesiredNodes(cfg.nodes, p), TasksOf(h.tasks, p));
    if FindsOwn(p) { var list, w := GroupSees(cfg, h, i); } else { var w := GroupSeesLent(cfg, h, i); }
  }

  lemma GroupReconciledTells(cfg: Config, h: Cluster, c: Cluster, i: nat, operation: OperationState, fault: Fault)
    requires SelectorsSingle(cfg) && Inv(cfg, h) && Inv(cfg, c) && Evolves(h, c) && Tells(cfg, c)
    requires i < |c.groups| <= |Planned(cfg)| && LenderDone(cfg, h.groups, i)
    ensures Tells(cfg, GroupReconciled(cfg, c, i, operation, h.tasks, fault))
  {
    hide Planned, InvOf, SelectorsSingle, Evolves, GroupStep, GroupActs, Listable, TasksOf, TaskViews, DesiredNodes,
         NodesOf, TypedMode, TaskTells, OperationTells, GroupsInOrder, LenderDone, FullIsDone;
    var g := c.groups[i];
    if !g.completed {
      InOrder(cfg, c);
      LastSpec(cfg, c);
      LaterGroups(cfg, h, c);
      OnlyLastIncomplete(cfg, c, i);
      if !fault.list && Listable(g.spec) {
        FullViews(cfg, h, i);
        var w := TaskViews(DesiredNodes(cfg.nodes, g.spec), TasksOf(h.tasks, g.spec));
        GroupStepTells(cfg, operation, g, w);
        var (g1, create) := GroupStep(operation, g, w);
        GroupActsTells(cfg, c, i, g1, create, TypedMode(operation.mode), fault);
      }
    }
  }

  lemma StepTells(cfg: Config, h: Cluster, c: Cluster, e: Event)
    requires SelectorsSingle(cfg) && Inv(cfg, h) && Inv(cfg, c) && Evolves(h, c) && Tells(cfg, c)
    requires ReadsListOf(h, e) && Timely(cfg, c, h, e)
    ensures Tells(cfg, Next(cfg, c, e))
  {
    hide Planned, InvOf, SelectorsSingle, OperationReconciled, GroupReconciled, Evolves, FindGroup, FindTask,
         TaskStep, RanBy, ResolvedBy, GroupTells, LenderDone;
    LastSpec(cfg, c);
    match e
    case ReconcileOperation(groups, fault) => OperationStepTells(cfg, h, c, fault);
    case ReconcileGroup(name, operation, tasks, fault) =>
      var i := FindGroup(c.groups, name);
      if i < |c.groups| { GroupReconciledTells(cfg, h, c, i, operation, fault); }
    case ReconcileTask(agent, name, operation, ok, fault) =>
      var i := FindTask(c.tasks, name);
      if i < |c.tasks| {
        StoredTaskOk(cfg, c, i);
        TaskStepTells(operation, c.tasks[i], ok);
      }
    case SetPaused(_) =>
    case SetRecovery(_, _) =>
  }

  /**
   * In every state of every run, whatever calls failed: the phase of an operation, group or task is "succeeded"
   * exactly when it is completed, and a completed group or operation counts all its tasks or groups as completed and
   * none as anything else.
   */
  lemma {:induction false} RunTells(cfg: Config, states: seq<Cluster>, events: seq<Event>)
    requires ProperRun(cfg, states, events) && states[0].operation.phase != PhaseSucceeded
    ensures forall i :: 0 <= i <= |events| ==> Tells(cfg, states[i])
  {
    hide Planned, Inv, Tells, Evolves, Next, SelectorsSingle, Reads, ReadsInTime, ReadsListOf, Timely;
    if events == [] {
      InitialTells(cfg, states[0]);
    } else {
      var n := |events| - 1;
      RunKeeps(cfg, states, events);
      RunPrefix(cfg, states, events);
      RunTells(cfg, states[..n + 1], events[..n]);
      forall i | 0 <= i <= n ensures Tells(cfg, states[i]) { assert states[..n + 1][i] == states[i]; }
      var m := ReadInTime(cfg, states[..n + 1], states[n], events[n]);
      StepTells(cfg, states[m], states[n], events[n]);
    }
  }

  lemma InitialTells(cfg: Config, c: Cluster)
    requires Initial(c) && c.operation.phase != PhaseSucceeded
    ensures Tells(cfg, c)
  {
  }

  // ---- the agents ----

  lemma StepDaemonSet(cfg: Config, c: Cluster, e: Event)
    requires c.operation.completed
    ensures e.ReconcileOperation? && !e.fault.daemonSet ==> !Next(cfg, c, e).daemonSet
    ensures !c.daemonSet ==> !Next(cfg, c, e).daemonSet
  {
    hide GroupReconciled, TaskStep, RanBy, ResolvedBy, FindTask, FindGroup, OperationPlans;
    match e
    case ReconcileOperation(_, _) =>
    case ReconcileGroup(name, operation, tasks, fault) =>
      var i := FindGroup(c.groups, name);
      if i < |c.groups| { GroupFrame(cfg, c, i, operation, tasks, fault); }
    case ReconcileTask(_, _, _, _, _) =>
    case SetPaused(_) =>
    case SetRecovery(_, _) =>
  }

  /**
   * Once the operation is completed, its next reconcile that gets through to the DaemonSet removes the agents, and for
   * good.
   */
  lemma {:induction false} RunAgentsAreRemoved(
      cfg: Config, states: seq<Cluster>, events: seq<Event>, i: nat, m: nat, j: nat)
    requires ProperRun(cfg, states, events) && i <= m < j <= |events|
        && states[i].operation.completed
    requires events[m].ReconcileOperation? && !events[m].fault.daemonSet
    ensures !states[j].daemonSet
    decreases j
  {
    hide Planned, Inv, Evolves, Next, SelectorsSingle, Reads, ReadsInTime, AllDone, Settled;
    RunCompletionStays(cfg, states, events, i, j - 1);
    StepDaemonSet(cfg, states[j - 1], events[j - 1]);
    if m < j - 1 { RunAgentsAreRemoved(cfg, states, events, i, m, j - 1); }
  }

  lemma RunCompletionStays(cfg: Config, states: seq<Cluster>, events: seq<Event>, i: nat, j: nat)
    requires ProperRun(cfg, states, events) && i <= j <= |events| && states[i].operation.completed
    ensures states[j].operation.completed
  {
    hide Planned, Inv, Next, SelectorsSingle, Reads, ReadsInTime, GroupsEvolve, TasksEvolve;
    RunKeeps(cfg, states, events);
    assert Evolves(states[i], states[j]);
  }
}
