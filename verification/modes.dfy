/** Pause, dry run and controlled mode, over whole runs. */
module Modes {
  import opened Names
  import opened Api
  import opened Matching
  import opened Machine
  import opened Schedule
  import opened Safety
  import opened Guarantees

  function Last<T>(s: seq<T>): T
    requires s != []
  {
    s[|s| - 1]
  }

  // ---- pause ----

  /** The user wants a pause and the operation controller has taken note, or has nothing left to do. */
  predicate Frozen(c: Cluster)
  {
    c.operation.specPaused && (c.operation.paused || c.operation.completed)
  }

  /** What the group and task controllers read about the operation was stored in `past`. */
  ghost predicate ReadsOperationOf(past: seq<Cluster>, e: Event)
  {
    match e
    case ReconcileGroup(_, operation, _, _) => exists h <- past :: h.operation == operation
    case ReconcileTask(_, _, operation, _, _) => exists h <- past :: h.operation == operation
    case _ => true
  }

  ghost predicate SameWork(a: Cluster, b: Cluster)
  {
    |b.groups| == |a.groups| && |b.tasks| == |a.tasks| && b.ran == a.ran
  }

  /** Setting completion clears the pause, but then the partition of the views leaves nothing to create. */
  lemma PausedOperationCreatesNothing(desired: seq<GroupSpec>, groups: seq<GroupState>, o: OperationState)
    requires o.paused
    ensures var (o1, create) := OperationNormal(GroupViews(desired, groups), o);
            && create.None? && o1.specPaused == o.specPaused && (o1.paused || o1.completed)
            && (!o.completed ==> (o1.paused <==> !o1.completed))
  {
    hide MatchGroups, GroupClass;
    ViewsPartition(GroupClass, MatchGroups(desired, groups));
  }

  lemma FrozenOperationStep(cfg: Config, c: Cluster, groups: seq<GroupState>, fault: Fault)
    requires Frozen(c)
    ensures var d := OperationReconciled(cfg, c, groups, fault); Frozen(d) && SameWork(c, d)
  {
    hide OperationNormal, GroupViews;
    var o := c.operation;
    if !o.completed {
      var o1 := o.(paused := o.specPaused);
      var w := GroupViews(cfg.desired, groups);
      PausedOperationCreatesNothing(cfg.desired, groups, o1.(counters := w.Counters()));
    }
  }

  lemma FrozenGroupStep(cfg: Config, c: Cluster, i: nat, operation: OperationState, tasks: seq<TaskState>, fault: Fault)
    requires i < |c.groups| && (operation.paused || c.groups[i].completed)
    ensures var d := GroupReconciled(cfg, c, i, operation, tasks, fault); d.operation == c.operation && SameWork(c, d)
  {
    hide TaskViews, DesiredNodes, Listable, TasksOf;
  }

  lemma FrozenTaskStep(c: Cluster, i: nat, operation: OperationState, ok: bool, fault: Fault)
    requires i < |c.tasks| && (operation.paused || c.tasks[i].completed)
    ensures var d := TaskReconciled(c, i, operation, ok, fault); d.operation == c.operation && SameWork(c, d)
  {
    hide TypedMode, TypedRecovery, TaskStep, ResolvedBy;
  }

  lemma FrozenStep(cfg: Config, c: Cluster, e: Event)
    requires Inv(cfg, c) && Frozen(c) && !e.SetPaused?
    requires e.ReconcileGroup? || e.ReconcileTask? ==> e.operation.paused || c.operation.completed
    ensures Frozen(Next(cfg, c, e)) && SameWork(c, Next(cfg, c, e))
  {
    hide Planned, InvOf, OperationReconciled, GroupReconciled, TaskReconciled, FindGroup, FindTask, Fits, AllSlots;
    if c.operation.completed { CompletedIsDone(cfg, c); }
    match e
    case ReconcileOperation(groups, fault) => FrozenOperationStep(cfg, c, groups, fault);
    case ReconcileGroup(name, operation, tasks, fault) =>
      var i := FindGroup(c.groups, name);
      if i < |c.groups| { FrozenGroupStep(cfg, c, i, operation, tasks, fault); }
    case ReconcileTask(agent, name, operation, ok, fault) =>
      var i := FindTask(c.tasks, name);
      if i < |c.tasks| { FrozenTaskStep(c, i, operation, ok, fault); }
    case SetRecovery(_, _) =>
  }

  /**
   * Pause freezes: from the moment it is noted until the user lifts it, controllers that know of it create and run
   * nothing.
   */
  lemma {:induction false} RunPauseFreezes(cfg: Config, states: seq<Cluster>, events: seq<Event>, i: nat, j: nat)
    requires ProperRun(cfg, states, events) && i <= j <= |events| && Frozen(states[i])
    requires forall m :: i <= m < j ==> !events[m].SetPaused? && ReadsOperationOf(states[i..m + 1], events[m])
    ensures Frozen(states[j]) && SameWork(states[i], states[j])
    decreases j
  {
    hide Planned, Inv, Next, SelectorsSingle, Frozen, Reads, ReadsInTime, Initial, GroupsEvolve, TasksEvolve;
    if i < j {
      RunPauseFreezes(cfg, states, events, i, j - 1);
      RunKeeps(cfg, states, events);
      var e := events[j - 1];
      if e.ReconcileGroup? || e.ReconcileTask? {
        var h :| h in states[i..j] && h.operation == e.operation;
        var m :| i <= m < j && states[m] == h;
        RunPauseFreezes(cfg, states, events, i, m);
        FrozenReader(states[m], states[j - 1]);
      }
      FrozenStep(cfg, states[j - 1], e);
    }
  }

  /** A task reconcile runs a command exactly when the operation it read is not paused, and the task has one to run. */
  lemma TaskRunsExactly(c: Cluster, i: nat, operation: OperationState, ok: bool, fault: Fault)
    requires i < |c.tasks| && TaskOk(c.tasks[i])
    ensures var t := c.tasks[i];
            TaskReconciled(c, i, operation, ok, fault).ran != c.ran <==>
              && !operation.paused && TypedMode(operation.mode) != DryRun
              && t.started && !t.completed && !Recovers(t) && t.commands != []
  {
    hide TypedMode, TypedRecovery, TaskStep, ResolvedBy;
  }

  /**
   * All that a group needs to create a task but leave to do so: it is under way, none is active, failed or invalid,
   * and one is missing.
   */
  predicate ReadyToCreate(cfg: Config, c: Cluster, i: nat, tasks: seq<TaskState>, fault: Fault)
    requires i < |c.groups|
  {
    var g := c.groups[i];
    var w := TaskViews(DesiredNodes(cfg.nodes, g.spec), TasksOf(tasks, g.spec));
    && g.started && !g.completed && !fault.list && Listable(g.spec)
    && w.Active() == 0 && w.failed == [] && w.invalid == [] && w.tobeCreated != []
    && !TaskRefused(c, TaskName(g.spec.name, w.tobeCreated[0].name), fault)
  }

  /** A group reconcile creates a task exactly when the operation it read is not paused, and the group is ready to. */
  lemma GroupCreatesExactly(
      cfg: Config, c: Cluster, i: nat, operation: OperationState, tasks: seq<TaskState>, fault: Fault)
    requires i < |c.groups|
    ensures GroupReconciled(cfg, c, i, operation, tasks, fault).tasks != c.tasks <==>
              !operation.paused && ReadyToCreate(cfg, c, i, tasks, fault)
  {
    hide TaskClass, MatchTasks, DesiredNodes, Listable, TasksOf, TypedMode, TaskRefused, TaskName, PhasedGroup, NewTask,
         Derive;
    var g := c.groups[i];
    ViewsPartition(TaskClass, MatchTasks(DesiredNodes(cfg.nodes, g.spec), TasksOf(tasks, g.spec)));
    ViewsOfAll(TaskClass, MatchTasks(DesiredNodes(cfg.nodes, g.spec), TasksOf(tasks, g.spec)));
    if !g.completed && !fault.list && Listable(g.spec) { ListedGroup(cfg, c, i, operation, tasks, fault); }
  }

  lemma FrozenReader(a: Cluster, b: Cluster)
    requires Frozen(a) && Evolves(a, b)
    ensures a.operation.paused || b.operation.completed
  {
  }

  // ---- the mode is fixed by the user at creation ----

  lemma OperationModeStays(cfg: Config, c: Cluster, groups: seq<GroupState>, fault: Fault)
    ensures OperationReconciled(cfg, c, groups, fault).operation.mode == c.operation.mode
  {
    hide GroupViews, GroupRefused;
    var o := c.operation.(paused := c.operation.specPaused);
    var w := GroupViews(cfg.desired, groups);
    NormalModeStays(w, o.(counters := w.Counters()));
  }

  lemma NormalModeStays(w: Views<GroupItem>, o: OperationState)
    ensures OperationNormal(w, o).0.mode == o.mode
  {
  }

  lemma ModeStays(cfg: Config, c: Cluster, e: Event)
    ensures Next(cfg, c, e).operation.mode == c.operation.mode
  {
    hide OperationReconciled, GroupReconciled, TaskReconciled, FindGroup, FindTask;
    match e
    case ReconcileOperation(groups, fault) => OperationModeStays(cfg, c, groups, fault);
    case ReconcileGroup(name, operation, tasks, fault) =>
      var i := FindGroup(c.groups, name);
      if i < |c.groups| { GroupFrame(cfg, c, i, operation, tasks, fault); }
    case ReconcileTask(agent, name, operation, ok, fault) =>
      var i := FindTask(c.tasks, name);
      if i < |c.tasks| { TaskFrame(c, i, operation, ok, fault); }
    case _ =>
  }

  lemma TaskFrame(c: Cluster, i: nat, operation: OperationState, ok: bool, fault: Fault)
    requires i < |c.tasks|
    ensures var d := TaskReconciled(c, i, operation, ok, fault);
            d.operation == c.operation && d.groups == c.groups && |d.tasks| == |c.tasks| && d.daemonSet == c.daemonSet
  {
    hide TaskStep, RanBy, ResolvedBy;
  }

  lemma {:induction false} RunMode(cfg: Config, states: seq<Cluster>, events: seq<Event>, i: nat)
    requires IsRun(cfg, states, events) && i <= |events|
    ensures states[i].operation.mode == states[0].operation.mode
    decreases i
  {
    hide Next, Reads;
    if i > 0 {
      RunMode(cfg, states, events, i - 1);
      ModeStays(cfg, states[i - 1], events[i - 1]);
    }
  }

  /** In a run every reader of the operation sees the mode it was created with. */
  lemma ModeRead(cfg: Config, states: seq<Cluster>, events: seq<Event>, i: nat)
    requires IsRun(cfg, states, events) && i < |events|
    ensures events[i].ReconcileGroup? || events[i].ReconcileTask? ==>
        events[i].operation.mode == states[0].operation.mode
  {
    hide Next, Initial;
    var past, e := states[..i + 1], events[i];
    assert Reads(past, e);
    if e.ReconcileGroup? || e.ReconcileTask? {
      var h :| h in past && h.operation == e.operation;
      var m :| 0 <= m < |past| && past[m] == h;
      RunMode(cfg, states, events, m);
    }
  }

  // ---- dry run ----

  function WithMode(o: OperationState, mode: string): OperationState { o.(mode := mode) }

  /** The same system under another mode and with another history of commands run. */
  function Recast(c: Cluster, mode: string, ran: seq<CommandRef>): Cluster
  {
    c.(operation := WithMode(c.operation, mode), ran := ran)
  }

  function DryOperation(o: OperationState): OperationState { WithMode(o, "DryRun") }

  /** The same system in dry run: nothing was run. */
  function Dry(c: Cluster): Cluster
  {
    Recast(c, "DryRun", [])
  }

  function DryEvent(e: Event): Event
  {
    match e
    case ReconcileGroup(name, operation, tasks, fault) => ReconcileGroup(name, DryOperation(operation), tasks, fault)
    case ReconcileTask(agent, name, operation, ok, fault) =>
      ReconcileTask(agent, name, DryOperation(operation), ok, fault)
    case _ => e
  }

  predicate Unattended(mode: Mode) { mode == Auto || mode == UnknownMode }

  /** A rehearsed command leaves the task as a successful one does, exactly when the real agent would not die. */
  lemma DryTaskStep(operation: OperationState, t: TaskState)
    requires TaskOk(t) && Unattended(TypedMode(operation.mode))
    ensures TaskStep(DryOperation(operation), t, true) == TaskStep(operation, t, true) <==> !Panics(operation, t)
    ensures !Panics(operation, t) ==> ResolvedBy(DryOperation(operation), t, true) == ResolvedBy(operation, t, true)
    ensures RanBy(DryOperation(operation), t) == []
  {
    hide TypedRecovery;
    DryMode();
    if Panics(operation, t) { assert TaskStep(operation, t, true).error == Some(IndexOutOfRange); }
  }

  lemma DryMode()
    ensures TypedMode("DryRun") == DryRun
  {
  }

  lemma OperationIgnoresMode(
      cfg: Config, c: Cluster, groups: seq<GroupState>, fault: Fault, mode: string, ran: seq<CommandRef>)
    ensures OperationReconciled(cfg, Recast(c, mode, ran), groups, fault) ==
        Recast(OperationReconciled(cfg, c, groups, fault), mode, ran)
  {
    hide OperationPlans;
    var o := c.operation;
    if !o.completed {
      var o1 := o.(paused := o.specPaused);
      assert WithMode(o1, mode) == WithMode(o, mode).(paused := o.specPaused);
      if !fault.daemonSet && !fault.list {
        PlansIgnoreMode(cfg, c.(daemonSet := DaemonSetShouldBeRunning(o1)), o1, groups, fault, mode, ran);
      }
    }
  }

  lemma NormalIgnoresMode(w: Views<GroupItem>, o: OperationState, mode: string)
    ensures OperationNormal(w, WithMode(o, mode)) == (WithMode(OperationNormal(w, o).0, mode), OperationNormal(w, o).1)
  {
    if w.Active() == 0 && |w.invalid| > 0 {
    } else if w.Active() == 0 && |w.failed| > 0 {
    } else {
      if !o.started {
      } else {
      }
    }
  }

  lemma PlansIgnoreMode(
      cfg: Config, c: Cluster, o: OperationState, groups: seq<GroupState>, fault: Fault, mode: string,
      ran: seq<CommandRef>)
    ensures OperationPlans(cfg, Recast(c, mode, ran), WithMode(o, mode), groups, fault)
         == Recast(OperationPlans(cfg, c, o, groups, fault), mode, ran)
  {
    hide GroupViews, OperationNormal, FindGroup;
    var w := GroupViews(cfg.desired, groups);
    var o1 := o.(counters := w.Counters());
    NormalIgnoresMode(w, o1, mode);
    assert WithMode(o1, mode) == WithMode(o, mode).(counters := w.Counters());
    var (o2, create) := OperationNormal(w, o1);
    if create.None? {
    } else if GroupRefused(c, create.value, fault) {
    } else {
    }
  }

  lemma DryActs(c: Cluster, i: nat, g: GroupState, create: Option<string>, mode: Mode, fault: Fault)
    requires i < |c.groups| && mode != Controlled
    ensures GroupActs(Dry(c), i, g, create, DryRun, fault) == Dry(GroupActs(c, i, g, create, mode, fault))
  {
    hide FindTask, TaskName, PhasedGroup;
    if create.Some? {
      if TaskRefused(c, TaskName(c.groups[i].spec.name, create.value), fault) {
      } else {
      }
    }
  }

  lemma DryGroupStep(cfg: Config, c: Cluster, i: nat, operation: OperationState, tasks: seq<TaskState>, fault: Fault)
    requires i < |c.groups| && Unattended(TypedMode(operation.mode))
    ensures GroupReconciled(cfg, Dry(c), i, DryOperation(operation), tasks, fault) ==
        Dry(GroupReconciled(cfg, c, i, operation, tasks, fault))
  {
    hide TaskViews, DesiredNodes, Listable, TasksOf, GroupNormal, GroupActs, TypedMode;
    DryMode();
    var g := c.groups[i];
    if !g.completed && !fault.list && Listable(g.spec) {
      var w := TaskViews(DesiredNodes(cfg.nodes, g.spec), TasksOf(tasks, g.spec));
      var (g1, create) := GroupStep(operation, g, w);
      DryActs(c, i, g1, create, TypedMode(operation.mode), fault);
    }
  }

  lemma DryTaskReconcile(c: Cluster, i: nat, operation: OperationState, fault: Fault)
    requires i < |c.tasks| && TaskOk(c.tasks[i]) && Unattended(TypedMode(operation.mode))
        && !Panics(operation, c.tasks[i])
    ensures TaskReconciled(Dry(c), i, DryOperation(operation), true, fault) ==
        Dry(TaskReconciled(c, i, operation, true, fault))
  {
    hide TaskStep, RanBy, ResolvedBy, Panics, TaskOk, TypedMode;
    DryTaskStep(operation, c.tasks[i]);
  }

  /** Every command succeeds. */
  predicate Succeeds(e: Event) { e.ReconcileTask? ==> e.ok }

  lemma DryStep(cfg: Config, c: Cluster, e: Event)
    requires Inv(cfg, c) && Succeeds(e) && (forall j :: 0 <= j < |c.tasks| ==> c.tasks[j].commands != [])
    requires e.ReconcileGroup? || e.ReconcileTask? ==> Unattended(TypedMode(e.operation.mode))
    ensures Next(cfg, Dry(c), DryEvent(e)) == Dry(Next(cfg, c, e))
  {
    hide InvOf, OperationReconciled, GroupReconciled, TaskReconciled, FindGroup, FindTask, TypedMode;
    match e
    case ReconcileOperation(groups, fault) => OperationIgnoresMode(cfg, c, groups, fault, "DryRun", []);
    case ReconcileGroup(name, operation, tasks, fault) =>
      var i := FindGroup(c.groups, name);
      if i < |c.groups| { DryGroupStep(cfg, c, i, operation, tasks, fault); }
    case ReconcileTask(agent, name, operation, ok, fault) =>
      var i := FindTask(c.tasks, name);
      if i < |c.tasks| {
        StoredTaskOk(cfg, c, i);
        PanicsExactly(operation, c.tasks[i]);
        DryTaskReconcile(c, i, operation, fault);
      }
    case SetPaused(_) =>
    case SetRecovery(_, _) =>
  }

  /** No task that the plan leads to is without commands. */
  ghost predicate CommandsEverywhere(cfg: Config)
  {
    forall s <- AllSlots(cfg) :: s.spec.commands != []
  }

  lemma StoredCommands(cfg: Config, c: Cluster)
    requires Inv(cfg, c) && CommandsEverywhere(cfg)
    ensures forall j :: 0 <= j < |c.tasks| ==> c.tasks[j].commands != []
  {
    hide Planned, Slots, LastGroup, GroupsInOrder, TaskOk, TaskName;
    LastSpec(cfg, c);
    SlotsPrefix(cfg, |c.groups|, |Planned(cfg)|);
    forall j | 0 <= j < |c.tasks| ensures c.tasks[j].commands != [] {
      assert Fits(c.tasks[j], Slots(cfg, |c.groups|)[j]);
      assert AllSlots(cfg)[j] in AllSlots(cfg);
    }
  }

  /** A dry run is a faithful rehearsal: the same schedule gives the same states, and runs nothing. */
  lemma {:induction false} RunDryIsFaithful(cfg: Config, states: seq<Cluster>, events: seq<Event>)
    requires ProperRun(cfg, states, events) && CommandsEverywhere(cfg)
    requires Unattended(TypedMode(states[0].operation.mode)) && forall e <- events :: Succeeds(e)
    ensures IsRun(cfg, seq(|states|, i requires 0 <= i < |states| => Dry(states[i])),
                  seq(|events|, i requires 0 <= i < |events| => DryEvent(events[i])))
  {
    hide Planned, Inv, Next, SelectorsSingle, Succeeds, TypedMode, CommandsEverywhere, Dry, DryEvent, Unattended,
         Evolves, Initial, Reads;
    var dry := seq(|states|, i requires 0 <= i < |states| => Dry(states[i]));
    var es := seq(|events|, i requires 0 <= i < |events| => DryEvent(events[i]));
    RunKeeps(cfg, states, events);
    DryInitial(states[0]);
    forall i | 0 <= i < |es| ensures Reads(dry[..i + 1], es[i]) && dry[i + 1] == Next(cfg, dry[i], es[i]) {
      StoredCommands(cfg, states[i]);
      ModeRead(cfg, states, events, i);
      assert events[i] in events;
      DryStep(cfg, states[i], events[i]);
      DryReads(states[..i + 1], dry[..i + 1], events[i]);
    }
  }

  lemma DryInitial(c: Cluster)
    requires Initial(c)
    ensures Initial(Dry(c))
  {
  }

  lemma DryReads(past: seq<Cluster>, dry: seq<Cluster>, e: Event)
    requires Reads(past, e) && |dry| == |past| && forall i :: 0 <= i < |past| ==> dry[i] == Dry(past[i])
    ensures Reads(dry, DryEvent(e))
  {
    match e
    case ReconcileOperation(groups, _) =>
      var i :| 0 <= i < |past| && past[i].groups == groups;
      assert dry[i].groups == groups && dry[i] in dry;
    case ReconcileGroup(_, operation, tasks, _) =>
      var i :| 0 <= i < |past| && past[i].operation == operation;
      var j :| 0 <= j < |past| && past[j].tasks == tasks;
      assert dry[i].operation == DryOperation(operation) && dry[i] in dry;
      assert dry[j].tasks == tasks && dry[j] in dry;
    case ReconcileTask(_, _, operation, _, _) =>
      var i :| 0 <= i < |past| && past[i].operation == operation;
      assert dry[i].operation == DryOperation(operation) && dry[i] in dry;
    case _ =>
  }

  // ---- and back: what a dry run rehearses ----

  function LiveCluster(c: Cluster): Cluster { Recast(c, "Auto", []) }

  /** The same event in automatic mode, the command succeeding. */
  function LiveEvent(e: Event): Event
  {
    match e
    case ReconcileGroup(name, operation, tasks, fault) =>
      ReconcileGroup(name, WithMode(operation, "Auto"), tasks, fault)
    case ReconcileTask(agent, name, operation, ok, fault) =>
      ReconcileTask(agent, name, WithMode(operation, "Auto"), true, fault)
    case _ => e
  }

  predicate IsDryOf(dry: Cluster, c: Cluster) { Dry(c) == dry && c.operation.mode == "Auto" }

  lemma LiveReads(cfg: Config, past: seq<Cluster>, live: seq<Cluster>, e: Event)
    requires |live| == |past| > 0 && forall i :: 0 <= i < |past| ==> IsDryOf(past[i], live[i])
    requires Reads(past, e) && ReadsInTime(cfg, past, Last(past), e)
    ensures Reads(live, LiveEvent(e)) && ReadsInTime(cfg, live, Last(live), LiveEvent(e))
  {
    hide Planned, LenderDone, FindGroup;
    forall i | 0 <= i < |past|
      ensures live[i] in live && live[i].groups == past[i].groups && live[i].tasks == past[i].tasks
      ensures live[i].operation == WithMode(past[i].operation, "Auto")
    {
      assert IsDryOf(past[i], live[i]);
      assert Dry(live[i]).operation == past[i].operation;
    }
    var m := ReadInTime(cfg, past, Last(past), e);
    assert ReadsListOf(live[m], LiveEvent(e)) && Timely(cfg, Last(live), live[m], LiveEvent(e));
    match e
    case ReconcileOperation(groups, _) =>
    case ReconcileGroup(_, operation, tasks, _) => var i :| 0 <= i < |past| && past[i].operation == operation;
    case ReconcileTask(_, _, operation, _, _) => var i :| 0 <= i < |past| && past[i].operation == operation;
    case _ =>
  }

  /** In dry run it does not matter what a command would have answered. */
  lemma DryIgnoresAnswer(cfg: Config, c: Cluster, e: Event)
    requires e.ReconcileGroup? || e.ReconcileTask? ==> e.operation.mode == "DryRun"
    ensures Next(cfg, c, e) == Next(cfg, c, DryEvent(LiveEvent(e)))
  {
    hide OperationReconciled, GroupReconciled, FindGroup, FindTask, TypedRecovery, TypedMode;
    DryMode();
  }

  /**
   * Every dry run, whatever it was told of commands, rehearses a run in automatic mode in which every command
   * succeeds: event by event, and in every state but for the mode and the commands run.
   */
  lemma {:induction false} DryRunHasAuto(cfg: Config, states: seq<Cluster>, events: seq<Event>)
    returns (live: seq<Cluster>, liveEvents: seq<Event>)
    requires ProperRun(cfg, states, events) && CommandsEverywhere(cfg)
    requires TypedMode(states[0].operation.mode) == DryRun
    ensures ProperRun(cfg, live, liveEvents) && |liveEvents| == |events|
    ensures forall i :: 0 <= i < |events| ==> liveEvents[i] == LiveEvent(events[i])
    ensures forall i :: 0 <= i <= |events| ==> IsDryOf(states[i], live[i])
  {
    hide Planned, Inv, Next, SelectorsSingle, TypedMode, LiveEvent, CommandsEverywhere, IsDryOf, Reads, ReadsInTime,
         Initial, Evolves, Succeeds;
    assert states[0].operation.mode == "DryRun" by { DryModeOnly(states[0].operation.mode); }
    if events == [] {
      LiveInitial(states[0]);
      live, liveEvents := [LiveCluster(states[0])], [];
    } else {
      var n := |events| - 1;
      RunPrefix(cfg, states, events);
      var past := states[..n + 1];
      var a, v := DryRunHasAuto(cfg, past, events[..n]);
      var e := LiveEvent(events[n]);
      LiveReads(cfg, past, a, events[n]);
      live, liveEvents := a + [Next(cfg, a[n], e)], v + [e];
      RunKeeps(cfg, a, v);
      StoredCommands(cfg, a[n]);
      ModeRead(cfg, states, events, n);
      LiveStep(cfg, states[n], a[n], events[n]);
      forall i | 0 <= i < |liveEvents|
        ensures Reads(live[..i + 1], liveEvents[i]) && live[i + 1] == Next(cfg, live[i], liveEvents[i])
        ensures ReadsInTime(cfg, live[..i + 1], live[i], liveEvents[i])
      {
        assert live[..i + 1] == a[..i + 1];
        if i == n { assert a[..n + 1] == a; }
      }
    }
  }

  lemma DryModeOnly(mode: string)
    requires TypedMode(mode) == DryRun
    ensures mode == "DryRun"
  {
  }

  lemma LiveInitial(c: Cluster)
    requires Initial(c) && c.operation.mode == "DryRun"
    ensures Initial(LiveCluster(c)) && IsDryOf(c, LiveCluster(c))
  {
  }

  lemma LiveStep(cfg: Config, dry: Cluster, c: Cluster, e: Event)
    requires Inv(cfg, c) && IsDryOf(dry, c) && forall j :: 0 <= j < |c.tasks| ==> c.tasks[j].commands != []
    requires e.ReconcileGroup? || e.ReconcileTask? ==> e.operation.mode == "DryRun"
    ensures IsDryOf(Next(cfg, dry, e), Next(cfg, c, LiveEvent(e)))
  {
    hide Inv, Next, Dry;
    AutoMode();
    DryIgnoresAnswer(cfg, dry, e);
    ModeStays(cfg, c, LiveEvent(e));
    DryStep(cfg, c, LiveEvent(e));
  }

  // ---- controlled mode ----

  /** A task without the pause that controlled mode leaves on it, and the phase that shows it. */
  function Unheld(t: TaskState): TaskState { t.(paused := false, phase := PhasePending) }

  function UnheldAll(tasks: seq<TaskState>): (r: seq<TaskState>)
    ensures |r| == |tasks| && forall i :: 0 <= i < |tasks| ==> r[i] == Unheld(tasks[i])
  {
    seq(|tasks|, i requires 0 <= i < |tasks| => Unheld(tasks[i]))
  }

  /** The system as automatic mode would have it, without the pauses put on tasks. */
  function AsAuto(c: Cluster): Cluster
  {
    Recast(c, "Auto", c.ran).(tasks := UnheldAll(c.tasks))
  }

  /** Modes that run every command, as opposed to a dry run. */
  predicate Executing(mode: Mode) { mode == Auto || mode == Controlled }

  function AutoEvent(e: Event): Event
  {
    match e
    case ReconcileGroup(name, operation, tasks, fault) =>
      ReconcileGroup(name, WithMode(operation, "Auto"), UnheldAll(tasks), fault)
    case ReconcileTask(agent, name, operation, ok, fault) =>
      ReconcileTask(agent, name, WithMode(operation, "Auto"), ok, fault)
    case _ => e
  }

  /**
   * The pause that controlled mode sets on a task is never looked at: the reconcile overwrites it with the
   * operation's.
   */
  lemma ControlledPauseIsIgnored(operation: OperationState, t: TaskState, ok: bool)
    requires Executing(TypedMode(operation.mode))
    ensures var auto := WithMode(operation, "Auto");
            && Unheld(TaskStep(auto, Unheld(t), ok)) == Unheld(TaskStep(operation, t, ok))
            && RanBy(auto, Unheld(t)) == RanBy(operation, t)
            && ResolvedBy(auto, Unheld(t), ok) == ResolvedBy(operation, t, ok)
  {
    hide TypedRecovery, RanBy, ResolvedBy, TaskStep;
    AutoMode();
    ControlledStep(operation, t, ok);
    ControlledRan(operation, t, ok);
  }

  lemma AutoMode()
    ensures TypedMode("Auto") == Auto
  {
  }

  lemma ControlledRan(operation: OperationState, t: TaskState, ok: bool)
    requires Executing(TypedMode(operation.mode))
    ensures var auto := WithMode(operation, "Auto");
            RanBy(auto, Unheld(t)) == RanBy(operation, t)
              && ResolvedBy(auto, Unheld(t), ok) == ResolvedBy(operation, t, ok)
  {
    hide TypedRecovery, TypedMode;
    AutoMode();
  }

  lemma ControlledRecovered(mode: Mode, t: TaskState)
    requires Recovers(t)
    ensures Recovers(Unheld(t)) && Unheld(Recovered(Auto, Unheld(t))) == Unheld(Recovered(mode, t))
  {
    hide TypedRecovery;
    if TypedRecovery(t.recovery) != SkipFailedCommand {
    } else if t.cursor >= |t.commands| {
    } else {
    }
  }

  lemma ControlledNormal(mode: Mode, t: TaskState, paused: bool, ok: bool)
    requires Executing(mode)
    ensures Unheld(TaskNormal(Auto, Unheld(t).(paused := paused), ok)) ==
        Unheld(TaskNormal(mode, t.(paused := paused), ok))
  {
    if paused {
    } else if !t.started {
    } else if !InRange(t) {
    } else if !ok {
    } else if t.cursor >= |t.commands| {
    } else {
    }
  }

  lemma UnheldPhase(t: TaskState, paused: bool)
    ensures Unheld(PhasedTask(t)) == Unheld(t) && Unheld(t.(paused := paused)) == Unheld(t)
  {
  }

  lemma ControlledStep(operation: OperationState, t: TaskState, ok: bool)
    requires Executing(TypedMode(operation.mode))
    ensures Unheld(TaskStep(WithMode(operation, "Auto"), Unheld(t), ok)) == Unheld(TaskStep(operation, t, ok))
  {
    hide TypedRecovery, TypedMode, Recovered, TaskNormal, PhasedTask, Recovers, Panics;
    AutoMode();
    var p, v, mode := operation.paused, Unheld(t), TypedMode(operation.mode);
    ControlledPanics(operation, t);
    if t.completed {
    } else if Recovers(t) {
      ControlledRecovered(mode, t);
      UnheldPhase(Recovered(Auto, v).(paused := p), p);
      UnheldPhase(Recovered(Auto, v), p);
      UnheldPhase(Recovered(mode, t).(paused := p), p);
      UnheldPhase(Recovered(mode, t), p);
    } else {
      SameRecovers(t);
      ControlledNormal(mode, t, p, ok);
      UnheldPhase(TaskNormal(Auto, v.(paused := p), ok), p);
      UnheldPhase(TaskNormal(mode, t.(paused := p), ok), p);
    }
  }

  lemma ControlledPanics(operation: OperationState, t: TaskState)
    requires Executing(TypedMode(operation.mode))
    ensures Panics(WithMode(operation, "Auto"), Unheld(t)) == Panics(operation, t)
  {
    hide TypedRecovery, TypedMode;
    AutoMode();
  }

  lemma SameRecovers(t: TaskState)
    ensures Recovers(Unheld(t)) == Recovers(t)
  {
  }

  /** A list of tasks is found and classified the same without the pauses. */
  lemma {:induction false} UnheldListed(tasks: seq<TaskState>, selector: Labels)
    ensures ListTasks(UnheldAll(tasks), selector) == UnheldAll(ListTasks(tasks, selector))
  {
    if tasks != [] {
      var n := |tasks| - 1;
      UnheldListed(tasks[..n], selector);
      assert UnheldAll(tasks)[..n] == UnheldAll(tasks[..n]);
    }
  }

  lemma UnheldTasksOf(tasks: seq<TaskState>, spec: GroupSpec)
    ensures TasksOf(UnheldAll(tasks), spec) == UnheldAll(TasksOf(tasks, spec))
  {
    hide ListTasks;
    var wanted := SelectorMap(spec.selector);
    if wanted.Some? { UnheldListed(tasks, wanted.value); }
  }

  lemma {:induction false} UnheldOn(tasks: seq<TaskState>, name: string)
    ensures TasksOn(UnheldAll(tasks), name) == UnheldAll(TasksOn(tasks, name))
  {
    if tasks != [] {
      var n := |tasks| - 1;
      UnheldOn(tasks[..n], name);
      assert UnheldAll(tasks)[..n] == UnheldAll(tasks[..n]);
    }
  }

  lemma {:induction false} UnheldFound(tasks: seq<TaskState>, name: string)
    ensures FindTask(UnheldAll(tasks), name) == FindTask(tasks, name)
  {
    if tasks != [] && tasks[0].name != name {
      UnheldFound(tasks[1..], name);
      assert UnheldAll(tasks)[1..] == UnheldAll(tasks[1..]);
    }
  }

  /** Lists of items that agree in class and name have views that agree in length and in the names. */
  lemma {:induction false} PickAlike(v: View, a: seq<TaskItem>, b: seq<TaskItem>)
    requires |a| == |b| && forall i :: 0 <= i < |a| ==> a[i].name == b[i].name && TaskClass(a[i]) == TaskClass(b[i])
    ensures var p, q := Pick(TaskClass, v, a), Pick(TaskClass, v, b);
            |p| == |q| && forall i :: 0 <= i < |p| ==> p[i].name == q[i].name
  {
    hide TaskClass;
    if a != [] { PickAlike(v, a[..|a| - 1], b[..|b| - 1]); }
  }

  ghost predicate Alike(w: Views<TaskItem>, x: Views<TaskItem>)
  {
    && |w.all| == |x.all| && |w.invalid| == |x.invalid| && |w.tobeCreated| == |x.tobeCreated|
        && |w.pending| == |x.pending|
    && |w.running| == |x.running| && |w.completed| == |x.completed| && |w.failed| == |x.failed|
    && (w.tobeCreated != [] ==> w.tobeCreated[0].name == x.tobeCreated[0].name)
  }

  lemma UnheldViews(nodes: seq<Node>, tasks: seq<TaskState>)
    ensures Alike(TaskViews(nodes, tasks), TaskViews(nodes, UnheldAll(tasks)))
  {
    hide SortNames, LastNode, NodeNames, Pick, TypedRecovery;
    var a, b := MatchTasks(nodes, tasks), MatchTasks(nodes, UnheldAll(tasks));
    assert TaskNodes(UnheldAll(tasks)) == TaskNodes(tasks);
    forall i | 0 <= i < |a| ensures a[i].name == b[i].name && TaskClass(a[i]) == TaskClass(b[i]) {
      UnheldOn(tasks, a[i].name);
    }
    PickAlike(Invalid, a, b);
    PickAlike(ToBeCreated, a, b);
    PickAlike(Pending, a, b);
    PickAlike(Running, a, b);
    PickAlike(Completed, a, b);
    PickAlike(Failed, a, b);
  }

  lemma AlikeDecides(w: Views<TaskItem>, x: Views<TaskItem>, operation: OperationState, g: GroupState)
    requires Alike(w, x)
    ensures GroupStep(operation, g, w) == GroupStep(WithMode(operation, "Auto"), g, x)
  {
  }

  lemma UnheldNew(tasks: seq<TaskState>, spec: GroupSpec, node: string, mode: Mode)
    ensures UnheldAll(UnheldAll(tasks) + [NewTask(spec, node, Auto)]) == UnheldAll(tasks + [NewTask(spec, node, mode)])
  {
  }

  lemma UnheldTwice(tasks: seq<TaskState>)
    ensures UnheldAll(UnheldAll(tasks)) == UnheldAll(tasks)
  {
  }

  lemma ControlledActs(c: Cluster, i: nat, g: GroupState, create: Option<string>, mode: Mode, fault: Fault)
    requires i < |c.groups|
    ensures AsAuto(GroupActs(AsAuto(c), i, g, create, Auto, fault)) == AsAuto(GroupActs(c, i, g, create, mode, fault))
  {
    hide TaskRefused, TaskName, UnheldAll, NewTask, PhasedGroup, WithMode;
    UnheldTwice(c.tasks);
    WithModeTwice(c.operation);
    if create.Some? {
      var spec := c.groups[i].spec;
      UnheldRefused(c, TaskName(spec.name, create.value), fault);
      UnheldNew(c.tasks, spec, create.value, mode);
    }
  }

  lemma UnheldRefused(c: Cluster, name: string, fault: Fault)
    ensures TaskRefused(AsAuto(c), name, fault) == TaskRefused(c, name, fault)
  {
    hide FindTask, UnheldAll;
    UnheldFound(c.tasks, name);
  }

  lemma ControlledGroupStep(
      cfg: Config, c: Cluster, i: nat, operation: OperationState, tasks: seq<TaskState>, fault: Fault)
    requires i < |c.groups|
    ensures AsAuto(GroupReconciled(cfg, AsAuto(c), i, WithMode(operation, "Auto"), UnheldAll(tasks), fault))
         == AsAuto(GroupReconciled(cfg, c, i, operation, tasks, fault))
  {
    hide TaskViews, DesiredNodes, Listable, TasksOf, GroupStep, TypedMode, UnheldAll, Alike, GroupActs, GroupReconciled;
    AutoMode();
    var g, auto := c.groups[i], WithMode(operation, "Auto");
    if g.completed || fault.list || !Listable(g.spec) {
      ControlledNoList(cfg, c, i, operation, tasks, fault);
    } else {
      UnheldTasksOf(tasks, g.spec);
      var nodes, list := DesiredNodes(cfg.nodes, g.spec), TasksOf(tasks, g.spec);
      UnheldViews(nodes, list);
      AlikeDecides(TaskViews(nodes, list), TaskViews(nodes, UnheldAll(list)), operation, g);
      var (g1, create) := GroupStep(operation, g, TaskViews(nodes, list));
      ListedGroup(cfg, c, i, operation, tasks, fault);
      ListedGroup(cfg, AsAuto(c), i, auto, UnheldAll(tasks), fault);
      ControlledActs(c, i, g1, create, TypedMode(operation.mode), fault);
    }
  }

  lemma ControlledNoList(
      cfg: Config, c: Cluster, i: nat, operation: OperationState, tasks: seq<TaskState>, fault: Fault)
    requires i < |c.groups| && (c.groups[i].completed || fault.list || !Listable(c.groups[i].spec))
    ensures AsAuto(GroupReconciled(cfg, AsAuto(c), i, WithMode(operation, "Auto"), UnheldAll(tasks), fault))
         == AsAuto(GroupReconciled(cfg, c, i, operation, tasks, fault))
  {
    hide Listable, UnheldAll;
    UnheldTwice(c.tasks);
  }

  lemma ListedGroup(cfg: Config, c: Cluster, i: nat, operation: OperationState, tasks: seq<TaskState>, fault: Fault)
    requires i < |c.groups| && !c.groups[i].completed && !fault.list && Listable(c.groups[i].spec)
    ensures var g := c.groups[i];
            var w := TaskViews(DesiredNodes(cfg.nodes, g.spec), TasksOf(tasks, g.spec));
            var (g1, create) := GroupStep(operation, g, w);
            GroupReconciled(cfg, c, i, operation, tasks, fault) ==
              GroupActs(c, i, g1, create, TypedMode(operation.mode), fault)
  {
    hide TaskViews, DesiredNodes, Listable, TasksOf, GroupStep, TypedMode, GroupActs;
  }

  lemma UnheldUpdate(tasks: seq<TaskState>, i: nat, a: TaskState, b: TaskState)
    requires i < |tasks| && Unheld(a) == Unheld(b)
    ensures UnheldAll(UnheldAll(tasks)[i := a]) == UnheldAll(tasks[i := b])
  {
    hide Unheld;
    var p, q := UnheldAll(UnheldAll(tasks)[i := a]), UnheldAll(tasks[i := b]);
    forall j | 0 <= j < |tasks| ensures p[j] == q[j] {
      if j != i { UnheldPhaseTwice(tasks[j]); }
    }
  }

  lemma UnheldPhaseTwice(t: TaskState)
    ensures Unheld(Unheld(t)) == Unheld(t)
  {
  }

  lemma ControlledTaskStep(c: Cluster, i: nat, operation: OperationState, ok: bool, fault: Fault)
    requires i < |c.tasks| && Executing(TypedMode(operation.mode))
    ensures AsAuto(TaskReconciled(AsAuto(c), i, WithMode(operation, "Auto"), ok, fault)) ==
        AsAuto(TaskReconciled(c, i, operation, ok, fault))
  {
    hide TaskStep, RanBy, ResolvedBy, TypedMode, UnheldAll, Unheld, WithMode;
    var t := c.tasks[i];
    UnheldTwice(c.tasks);
    ControlledPauseIsIgnored(operation, t, ok);
    UnheldUpdate(c.tasks, i, TaskStep(WithMode(operation, "Auto"), Unheld(t), ok), TaskStep(operation, t, ok));
    assert AsAuto(c).tasks[i] == Unheld(t) by { UnheldAt(c.tasks, i); }
    WithModeTwice(c.operation);
    assert |AsAuto(c).tasks| == |c.tasks|;
  }

  lemma UnheldAt(tasks: seq<TaskState>, i: nat)
    requires i < |tasks|
    ensures i < |UnheldAll(tasks)| && UnheldAll(tasks)[i] == Unheld(tasks[i])
  {
  }

  lemma WithModeTwice(o: OperationState)
    ensures WithMode(WithMode(o, "Auto"), "Auto") == WithMode(o, "Auto")
  {
  }

  lemma ControlledOperationStep(cfg: Config, c: Cluster, groups: seq<GroupState>, fault: Fault)
    ensures AsAuto(OperationReconciled(cfg, AsAuto(c), groups, fault)) ==
        AsAuto(OperationReconciled(cfg, c, groups, fault))
  {
    hide OperationReconciled;
    var d := c.(tasks := UnheldAll(c.tasks));
    OperationIgnoresMode(cfg, d, groups, fault, "Auto", c.ran);
    OperationIgnoresTasks(cfg, c, groups, fault, UnheldAll(c.tasks));
    OperationFrame(cfg, c, groups, fault);
    UnheldTwice(c.tasks);
    assert AsAuto(c) == Recast(d, "Auto", c.ran);
  }

  lemma OperationIgnoresTasks(cfg: Config, c: Cluster, groups: seq<GroupState>, fault: Fault, tasks: seq<TaskState>)
    ensures OperationReconciled(cfg, c.(tasks := tasks), groups, fault) ==
        OperationReconciled(cfg, c, groups, fault).(tasks := tasks)
  {
    hide GroupViews, OperationNormal, FindGroup, DaemonSetShouldBeRunning;
  }

  lemma ControlledStepAlike(cfg: Config, c: Cluster, e: Event)
    requires e.ReconcileTask? ==> Executing(TypedMode(e.operation.mode))
    ensures AsAuto(Next(cfg, AsAuto(c), AutoEvent(e))) == AsAuto(Next(cfg, c, e))
  {
    hide OperationReconciled, GroupReconciled, TaskReconciled, FindGroup, FindTask, TypedMode, UnheldAll, Unheld;
    UnheldTwice(c.tasks);
    match e
    case ReconcileOperation(groups, fault) => ControlledOperationStep(cfg, c, groups, fault);
    case ReconcileGroup(name, operation, tasks, fault) =>
      var i := FindGroup(c.groups, name);
      if i < |c.groups| { ControlledGroupStep(cfg, c, i, operation, tasks, fault); }
    case ReconcileTask(agent, name, operation, ok, fault) =>
      var i := FindTask(c.tasks, name);
      UnheldFound(c.tasks, name);
      if i < |c.tasks| {
        UnheldAt(c.tasks, i);
        UnheldNode(c.tasks[i]);
        ControlledTaskStep(c, i, operation, ok, fault);
      }
    case SetPaused(_) =>
    case SetRecovery(name, mode) =>
      var i := FindTask(c.tasks, name);
      UnheldFound(c.tasks, name);
      if i < |c.tasks| {
        UnheldAt(c.tasks, i);
        UnheldRecovery(c.tasks[i], mode);
        UnheldUpdate(c.tasks, i, Unheld(c.tasks[i]).(recovery := mode), c.tasks[i].(recovery := mode));
      }
  }

  lemma UnheldNode(t: TaskState)
    ensures Unheld(t).node == t.node
  {
  }

  lemma UnheldRecovery(t: TaskState, mode: string)
    ensures Unheld(Unheld(t).(recovery := mode)) == Unheld(t.(recovery := mode))
  {
  }

  /**
   * Controlled mode holds nothing: under one schedule it goes through the states of automatic mode, task pauses aside.
   */
  lemma {:induction false} RunControlledIsAuto(
      cfg: Config, states: seq<Cluster>, events: seq<Event>, autoStates: seq<Cluster>, autoEvents: seq<Event>, n: nat)
    requires IsRun(cfg, states, events) && IsRun(cfg, autoStates, autoEvents) && n <= |events| == |autoEvents|
    requires TypedMode(states[0].operation.mode) == Controlled && TypedMode(autoStates[0].operation.mode) == Auto
    requires AsAuto(states[0]) == AsAuto(autoStates[0])
    requires forall i :: 0 <= i < |events| ==> AutoEvent(events[i]) == AutoEvent(autoEvents[i])
    ensures AsAuto(states[n]) == AsAuto(autoStates[n])
    ensures states[n].ran == autoStates[n].ran && states[n].resolved == autoStates[n].resolved
    decreases n
  {
    hide Next, TypedMode, AutoEvent, Initial, Reads, UnheldAll, WithMode;
    if n > 0 {
      var i := n - 1;
      RunControlledIsAuto(cfg, states, events, autoStates, autoEvents, i);
      ModeRead(cfg, states, events, i);
      ModeRead(cfg, autoStates, autoEvents, i);
      ControlledStepAlike(cfg, states[i], events[i]);
      ControlledStepAlike(cfg, autoStates[i], autoEvents[i]);
      assert states[n] == Next(cfg, states[i], events[i]) && autoStates[n] == Next(cfg, autoStates[i], autoEvents[i]);
    }
  }

  /**
   * The event that a run in automatic mode has in place of `e`: it reads the states at the same places of its own
   * past.
   */
  lemma AutoEventOf(past: seq<Cluster>, auto: seq<Cluster>, e: Event) returns (v: Event)
    requires Reads(past, e) && |auto| == |past| && forall i :: 0 <= i < |past| ==> AsAuto(auto[i]) == AsAuto(past[i])
    ensures Reads(auto, v) && AutoEvent(v) == AutoEvent(e)
  {
    hide UnheldAll, AsAuto, WithMode;
    match e
    case ReconcileOperation(groups, fault) =>
      var i :| 0 <= i < |past| && past[i].groups == groups;
      SameParts(auto[i], past[i]);
      v := ReconcileOperation(auto[i].groups, fault);
      assert auto[i] in auto;
    case ReconcileGroup(name, operation, tasks, fault) =>
      var i :| 0 <= i < |past| && past[i].operation == operation;
      var j :| 0 <= j < |past| && past[j].tasks == tasks;
      SameParts(auto[i], past[i]);
      SameParts(auto[j], past[j]);
      v := ReconcileGroup(name, auto[i].operation, auto[j].tasks, fault);
      assert auto[i] in auto && auto[j] in auto;
    case ReconcileTask(agent, name, operation, ok, fault) =>
      var i :| 0 <= i < |past| && past[i].operation == operation;
      SameParts(auto[i], past[i]);
      v := ReconcileTask(agent, name, auto[i].operation, ok, fault);
      assert auto[i] in auto;
    case _ => v := e;
  }

  lemma SameParts(a: Cluster, b: Cluster)
    requires AsAuto(a) == AsAuto(b)
    ensures a.groups == b.groups && UnheldAll(a.tasks) == UnheldAll(b.tasks)
    ensures WithMode(a.operation, "Auto") == WithMode(b.operation, "Auto")
  {
    hide UnheldAll, WithMode;
    assert AsAuto(a).groups == AsAuto(b).groups && AsAuto(a).tasks == AsAuto(b).tasks
        && AsAuto(a).operation == AsAuto(b).operation;
  }

  lemma AutoInitial(c: Cluster)
    requires Initial(c)
    ensures Initial(AsAuto(c)) && AsAuto(AsAuto(c)) == AsAuto(c) && TypedMode(AsAuto(c).operation.mode) == Auto
  {
    AutoMode();
    UnheldTwice(c.tasks);
  }

  /**
   * Controlled mode holds nothing: every run in controlled mode has a run in automatic mode, event by event the same,
   * that goes through the same states, task pauses aside, and runs and leaves behind the same commands.
   */
  lemma {:induction false} ControlledRunHasAuto(cfg: Config, states: seq<Cluster>, events: seq<Event>)
    returns (auto: seq<Cluster>, autoEvents: seq<Event>)
    requires IsRun(cfg, states, events) && TypedMode(states[0].operation.mode) == Controlled
    ensures IsRun(cfg, auto, autoEvents) && |autoEvents| == |events| && TypedMode(auto[0].operation.mode) == Auto
    ensures forall i :: 0 <= i < |events| ==> AutoEvent(autoEvents[i]) == AutoEvent(events[i])
    ensures forall i :: 0 <= i <= |events| ==>
              AsAuto(auto[i]) == AsAuto(states[i]) && auto[i].ran == states[i].ran
                && auto[i].resolved == states[i].resolved
  {
    hide Next, TypedMode, AutoEvent, Initial, Reads, AsAuto;
    if events == [] {
      AutoInitial(states[0]);
      auto, autoEvents := [AsAuto(states[0])], [];
      RunControlledIsAuto(cfg, states, [], auto, [], 0);
    } else {
      var n := |events| - 1;
      IsRunPrefix(cfg, states, events);
      var past := states[..n + 1];
      var a, v := ControlledRunHasAuto(cfg, past, events[..n]);
      var e := AutoEventOf(past, a, events[n]);
      auto, autoEvents := a + [Next(cfg, a[n], e)], v + [e];
      forall i | 0 <= i < |autoEvents|
        ensures Reads(auto[..i + 1], autoEvents[i]) && auto[i + 1] == Next(cfg, auto[i], autoEvents[i])
      {
        assert auto[..i + 1] == a[..i + 1];
        if i == n { assert a[..n + 1] == a; }
      }
      forall i | 0 <= i <= n + 1
        ensures AsAuto(auto[i]) == AsAuto(states[i]) && auto[i].ran == states[i].ran
            && auto[i].resolved == states[i].resolved
      {
        RunControlledIsAuto(cfg, states, events, auto, autoEvents, i);
      }
    }
  }
}
