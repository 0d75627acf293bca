/**
 * What one reconcile does and tells, for every stored object and everything read: flat, of the objects and of the
 * strings the user writes.
 */
module Outcomes {
  import opened Names
  import opened Api
  import opened Matching
  import opened Machine
  import opened Schedule
  import opened Safety
  import opened Guarantees
  import opened Sightings

  /** Exactly one phase is right. */
  predicate PhaseTells(phase: Phase, failed: bool, completed: bool, paused: bool, started: bool)
  {
    && (phase == PhaseFailed <==> failed)
    && (phase == PhaseSucceeded <==> !failed && completed)
    && (phase == PhasePaused <==> !failed && !completed && paused)
    && (phase == PhaseRunning <==> !failed && !completed && !paused && started)
    && (phase == PhasePending <==> !failed && !completed && !paused && !started)
  }

  // ---- the group controller ----

  /** A task as it is created. */
  predicate MadeTask(t: TaskState, spec: GroupSpec, node: string, mode: string)
  {
    && t.name == spec.name + "-" + node && t.group == spec.name && t.labels == spec.labels && t.node == node
    && t.commands == spec.commands && t.recovery == "" && !t.started && t.cursor == 0 && !t.completed && t.error.None?
    && (t.paused <==> mode == "Controlled") && t.phase == PhasePending
  }

  /** What a reconcile of group `g` decides: its new status, but for the phase, and the node to create a task for. */
  ghost predicate GroupDecision(
      met: set<string>, standing: View -> set<string>, paused: bool, g: GroupState, u: GroupState, node: Option<string>)
  {
    var busy, sound, done := Busy(standing), Sound(standing), standing(Completed) == met;
    && u.spec == g.spec && CountersTell(u.counters, met, standing)
    && (u.started <==> g.started || sound)
    && (u.completed <==> g.started && sound && done)
    && (u.paused <==> paused && !u.completed)
    && u.error == (if busy || u.completed then None
                   else if standing(Invalid) != {} then Some(ReconciliationError)
                   else if standing(Failed) != {} then Some(ReplicaError)
                   else g.error)
    && (node.Some? <==>
          g.started && sound && !busy && !done && !paused && standing(ToBeCreated) != {})
    && (node.Some? ==> First(standing(ToBeCreated), node.value))
  }

  lemma GroupStepDecides(
      operation: OperationState, g: GroupState, w: Views<TaskItem>, met: set<string>, standing: View -> set<string>)
    requires Sees(w, TaskItemName(), met, standing) && !g.completed
    ensures var (u, node) := GroupStep(operation, g, w);
            GroupDecision(met, standing, operation.paused, g, u, node)
  {
    hide Sees, First, CountersTell;
    Looks(w, TaskItemName(), met, standing);
  }

  /** No stored task has this name. */
  predicate NameFree(tasks: seq<TaskState>, name: string) { forall t <- tasks :: t.name != name }

  lemma {:induction false} NameIsFree(c: Cluster, name: string)
    ensures FindTask(c.tasks, name) == |c.tasks| <==> NameFree(c.tasks, name)
  {
    var i := FindTask(c.tasks, name);
    if i < |c.tasks| { assert c.tasks[i] in c.tasks; }
  }

  /**
   * A reconcile of a group that is not completed, for whatever nodes, tasks and status: what is wrong, missing, busy
   * and done among the names it meets decides all of it.
   */
  lemma GroupReconcileDoes(cfg: Config, c: Cluster, i: nat, operation: OperationState, cached: seq<TaskState>)
    returns (node: Option<string>)
    requires i < |c.groups| && !c.groups[i].completed && Listable(c.groups[i].spec)
    ensures var g, d := c.groups[i], GroupReconciled(cfg, c, i, operation, cached, NO_FAULT);
            var nodes, tasks := DesiredNodes(cfg.nodes, g.spec), TasksOf(cached, g.spec);
            && |d.groups| == |c.groups| && d == c.(groups := c.groups[i := d.groups[i]], tasks := d.tasks)
            && GroupDecision(NodesMet(nodes, tasks), v => Standing(v, nodes, tasks), operation.paused, g, d.groups[i],
                node)
            && (node.None? || !NameFree(c.tasks, g.spec.name + "-" + node.value) ==> d.tasks == c.tasks)
            && (node.Some? && NameFree(c.tasks, g.spec.name + "-" + node.value) ==>
                  |d.tasks| == |c.tasks| + 1 && d.tasks[..|c.tasks|] == c.tasks
                  && MadeTask(d.tasks[|c.tasks|], g.spec, node.value, operation.mode))
            && var u := d.groups[i];
               if node.Some? && !NameFree(c.tasks, g.spec.name + "-" + node.value) then u.phase == g.phase
               else PhaseTells(u.phase, u.error.Some?, u.completed, u.paused, u.started)
  {
    hide TaskViews, DesiredNodes, TasksOf, Listable, FindTask, Sees, GroupDecision, GroupStep, NameFree;
    var g := c.groups[i];
    var nodes, tasks := DesiredNodes(cfg.nodes, g.spec), TasksOf(cached, g.spec);
    var w := TaskViews(nodes, tasks);
    TasksSeen(nodes, tasks);
    GroupStepDecides(operation, g, w, NodesMet(nodes, tasks), v => Standing(v, nodes, tasks));
    var (u, created) := GroupStep(operation, g, w);
    node := created;
    GroupPhase(operation, g, w, NodesMet(nodes, tasks), v => Standing(v, nodes, tasks), PhasedGroup(u).phase);
    if node.Some? { NameIsFree(c, g.spec.name + "-" + node.value); }
  }

  lemma GroupPhase(
      operation: OperationState, g: GroupState, w: Views<TaskItem>, met: set<string>, standing: View -> set<string>,
      phase: Phase)
    ensures var (u, node) := GroupStep(operation, g, w);
            && u.phase == g.phase
            && (GroupDecision(met, standing, operation.paused, g, u, node) <==>
                GroupDecision(met, standing, operation.paused, g, u.(phase := phase), node))
  {
    hide CountersTell, First;
  }

  // ---- the operation controller ----

  /** A group as it is created. */
  predicate MadeGroup(g: GroupState, spec: GroupSpec)
  {
    && g.spec == spec && !g.started && !g.paused && !g.completed && g.error.None? && g.phase == PhasePending
    && g.counters == Counters(0, 0, 0, 0, 0)
  }

  /** The last planned group of this name. */
  predicate LatestPlanned(desired: seq<GroupSpec>, n: string, spec: GroupSpec)
  {
    exists j :: 0 <= j < |desired| && desired[j] == spec && spec.name == n
                && forall l :: j < l < |desired| ==> desired[l].name != n
  }

  lemma {:induction false} PlannedIsLatest(desired: seq<GroupSpec>, n: string)
    ensures LastPlanned(desired, n).Some? ==> LatestPlanned(desired, n, LastPlanned(desired, n).value)
  {
    if desired != [] && desired[|desired| - 1].name != n {
      var t := desired[..|desired| - 1];
      PlannedIsLatest(t, n);
      if LastPlanned(t, n).Some? {
        var spec := LastPlanned(t, n).value;
        var j :| 0 <= j < |t| && t[j] == spec && spec.name == n && forall l :: j < l < |t| ==> t[l].name != n;
        assert desired[j] == spec;
      }
    }
  }

  ghost predicate OperationDecision(
      met: set<string>, standing: View -> set<string>, o: OperationState, u: OperationState, create: Option<string>)
  {
    var busy, sound, done := Busy(standing), Sound(standing), standing(Completed) == met;
    && u.specPaused == o.specPaused && u.mode == o.mode && CountersTell(u.counters, met, standing)
    && (u.started <==> o.started || sound)
    && (u.completed <==> o.started && sound && done)
    && (u.paused <==> o.specPaused && !u.completed)
    && u.error == (if busy || u.completed then None
                   else if standing(Invalid) != {} then Some(ReconciliationError)
                   else if standing(Failed) != {} then Some(ReplicaError)
                   else o.error)
    && (create.Some? <==>
          o.started && sound && !busy && !done && !o.specPaused && standing(ToBeCreated) != {})
    && (create.Some? ==> First(standing(ToBeCreated), create.value))
  }

  lemma OperationDecides(
      o: OperationState, w: Views<GroupItem>, met: set<string>, standing: View -> set<string>, phase: Phase)
    requires Sees(w, GroupItemName(), met, standing) && !o.completed
    requires forall x <- w.tobeCreated :: x.planned.Some? && x.planned.value.name == x.name
    requires standing(Completed) == met ==> standing(ToBeCreated) == {}
    ensures var (u, create) := OperationNormal(w, o.(paused := o.specPaused, counters := w.Counters()));
            && u.phase == o.phase && (create.Some? ==> create == w.tobeCreated[0].planned)
            && OperationDecision(met, standing, o, u.(phase := phase),
                                 if create.Some? then Some(create.value.name) else None)
  {
    hide Sees, First, CountersTell;
    Looks(w, GroupItemName(), met, standing);
    if |w.tobeCreated| > 0 { assert w.tobeCreated[0] in w.tobeCreated; }
  }

  predicate GroupNameFree(groups: seq<GroupState>, name: string) { forall g <- groups :: g.spec.name != name }

  lemma {:induction false} GroupNameIsFree(c: Cluster, name: string)
    ensures FindGroup(c.groups, name) == |c.groups| <==> GroupNameFree(c.groups, name)
  {
    var i := FindGroup(c.groups, name);
    if i < |c.groups| { assert c.groups[i] in c.groups; }
  }

  lemma PlannedItems(desired: seq<GroupSpec>, groups: seq<GroupState>)
    ensures forall x <- GroupViews(desired, groups).tobeCreated ::
              x.planned.Some? && x.planned.value.name == x.name && LatestPlanned(desired, x.name, x.planned.value)
  {
    hide LatestPlanned, LastCurrent, LastPlanned;
    var all := MatchGroups(desired, groups);
    forall x | x in GroupViews(desired, groups).tobeCreated
      ensures x.planned.Some? && x.planned.value.name == x.name && LatestPlanned(desired, x.name, x.planned.value)
    {
      var i :| 0 <= i < |Pick(GroupClass, ToBeCreated, all)| && Pick(GroupClass, ToBeCreated, all)[i] == x;
      PickSound(GroupClass, ToBeCreated, all, i);
      LastPlannedFound(desired, x.name);
      PlannedIsLatest(desired, x.name);
    }
  }

  lemma LatestIsNamed(groups: seq<GroupState>, n: string, j: int)
    requires LatestGroup(groups, n, j)
    ensures n in GroupNames(groups)
  {
    assert GroupNames(groups)[j] == n;
  }

  /** Nothing is both done and missing. */
  lemma DoneIsNotMissing(desired: seq<GroupSpec>, groups: seq<GroupState>)
    ensures StandingGroups(Completed, desired, groups) == GroupsMet(desired, groups) ==>
              StandingGroups(ToBeCreated, desired, groups) == {}
  {
    hide SpecNames, GroupNames;
    if n :| n in StandingGroups(ToBeCreated, desired, groups) {
      assert n in GroupsMet(desired, groups);
      if j :| LatestGroup(groups, n, j) { LatestIsNamed(groups, n, j); }
      assert n !in StandingGroups(Completed, desired, groups);
    }
  }

  /** The name of the group that an operation reconcile decides to create. */
  function NameOf(create: Option<GroupSpec>): Option<string>
  {
    if create.Some? then Some(create.value.name) else None
  }

  /**
   * A reconcile of an operation that is not completed, for whatever plan, groups and status. The agents are there
   * exactly if there was no error.
   */
  lemma OperationReconcileDoes(cfg: Config, c: Cluster, cached: seq<GroupState>) returns (create: Option<GroupSpec>)
    requires !c.operation.completed
    ensures var o, d := c.operation, OperationReconciled(cfg, c, cached, NO_FAULT);
            && d == c.(operation := d.operation, groups := d.groups, daemonSet := d.daemonSet)
            && (d.daemonSet <==> o.error.None?)
            && OperationDecision(GroupsMet(cfg.desired, cached), v => StandingGroups(v, cfg.desired, cached), o,
                                 d.operation, NameOf(create))
            && (create.Some? ==> LatestPlanned(cfg.desired, create.value.name, create.value))
            && (create.None? || !GroupNameFree(c.groups, create.value.name) ==> d.groups == c.groups)
            && (create.Some? && GroupNameFree(c.groups, create.value.name) ==>
                  |d.groups| == |c.groups| + 1 && d.groups[..|c.groups|] == c.groups
                  && MadeGroup(d.groups[|c.groups|], create.value))
            && var u := d.operation;
               if create.Some? && !GroupNameFree(c.groups, create.value.name) then u.phase == o.phase
               else PhaseTells(u.phase, u.error.Some?, u.completed, u.paused, u.started)
  {
    hide OperationPlans, OperationDecision, GroupNameFree, LatestPlanned, MadeGroup, PhaseTells;
    var o1 := c.operation.(paused := c.operation.specPaused);
    var c1 := c.(daemonSet := DaemonSetShouldBeRunning(o1));
    create := OperationPlansDoes(cfg, c1, o1, cached);
    PauseIsDecided(GroupsMet(cfg.desired, cached), v => StandingGroups(v, cfg.desired, cached), c.operation,
      OperationPlans(cfg, c1, o1, cached, NO_FAULT).operation, NameOf(create));
  }

  /** The pause that was there does not matter. */
  lemma PauseIsDecided(
      met: set<string>, standing: View -> set<string>, o: OperationState, u: OperationState, create: Option<string>)
    ensures OperationDecision(met, standing, o, u, create) <==>
        OperationDecision(met, standing, o.(paused := o.specPaused), u, create)
  {
    hide CountersTell, First;
  }

  lemma OperationPlansDoes(cfg: Config, c: Cluster, o: OperationState, cached: seq<GroupState>)
    returns (create: Option<GroupSpec>)
    requires !o.completed && o.paused == o.specPaused
    ensures var d := OperationPlans(cfg, c, o, cached, NO_FAULT);
            && d == c.(operation := d.operation, groups := d.groups)
            && OperationDecision(GroupsMet(cfg.desired, cached), v => StandingGroups(v, cfg.desired, cached), o,
                                 d.operation, NameOf(create))
            && (create.Some? ==> LatestPlanned(cfg.desired, create.value.name, create.value))
            && (create.None? || !GroupNameFree(c.groups, create.value.name) ==> d.groups == c.groups)
            && (create.Some? && GroupNameFree(c.groups, create.value.name) ==>
                  |d.groups| == |c.groups| + 1 && d.groups[..|c.groups|] == c.groups
                  && MadeGroup(d.groups[|c.groups|], create.value))
            && var u := d.operation;
               if create.Some? && !GroupNameFree(c.groups, create.value.name) then u.phase == o.phase
               else PhaseTells(u.phase, u.error.Some?, u.completed, u.paused, u.started)
  {
    hide GroupViews, FindGroup, Sees, OperationDecision, OperationNormal, GroupNameFree, LatestPlanned, GroupsMet,
         StandingGroups;
    var w := GroupViews(cfg.desired, cached);
    GroupsSeen(cfg.desired, cached);
    PlannedItems(cfg.desired, cached);
    DoneIsNotMissing(cfg.desired, cached);
    var met, standing := GroupsMet(cfg.desired, cached), v => StandingGroups(v, cfg.desired, cached);
    var (u, created) := OperationNormal(w, o.(counters := w.Counters()));
    create := created;
    OperationDecides(o, w, met, standing, o.phase);
    OperationDecides(o, w, met, standing, PhasedOperation(u).phase);
    if create.Some? {
      Looked(o, w);
      assert w.tobeCreated[0] in w.tobeCreated;
      GroupNameIsFree(c, create.value.name);
    }
  }

  lemma Looked(o: OperationState, w: Views<GroupItem>)
    requires OperationNormal(w, o.(paused := o.specPaused, counters := w.Counters())).1.Some?
    ensures |w.tobeCreated| > 0
  {
  }

  /** A completed operation only has its agents taken away. */
  lemma CompletedReconcileDoes(cfg: Config, c: Cluster, cached: seq<GroupState>)
    requires c.operation.completed
    ensures OperationReconciled(cfg, c, cached, NO_FAULT) == c.(daemonSet := false)
  {
    hide OperationPlans;
  }

  // ---- the task controller ----

  /** A retry has been chosen for the error there is. */
  predicate Retries(t: TaskState) { t.error.Some? && t.recovery == "RetryFailedCommand" }

  predicate Skips(t: TaskState) { t.error.Some? && t.recovery == "SkipFailedCommand" }

  /** The reconcile comes to the current command, to run it or, in dry run, to pass it by. */
  predicate ComesTo(operation: OperationState, t: TaskState)
  {
    !t.completed && !Retries(t) && !Skips(t) && !operation.paused && t.started
  }

  /** There is no such command. */
  predicate Dies(operation: OperationState, t: TaskState)
  {
    ComesTo(operation, t) && operation.mode != "DryRun" && !(1 <= t.cursor <= |t.commands|)
  }

  predicate RunsIt(operation: OperationState, t: TaskState)
  {
    ComesTo(operation, t) && operation.mode != "DryRun" && 1 <= t.cursor <= |t.commands|
  }

  /** The current command is left behind: skipped, rehearsed, or run with success. */
  predicate LeavesBehind(operation: OperationState, t: TaskState, ok: bool)
  {
    !t.completed && (Skips(t) || (ComesTo(operation, t) && !Dies(operation, t) && (operation.mode == "DryRun" || ok)))
  }

  /** A reconcile of a task that is not completed, for whatever status. */
  lemma TaskReconcileDoes(operation: OperationState, t: TaskState, ok: bool)
    requires !t.completed
    ensures var u := TaskStep(operation, t, ok);
            var left, starts := LeavesBehind(operation, t, ok),
                !Retries(t) && !Skips(t) && !operation.paused && !t.started;
            && SameTask(t, u)
            && (u.started <==> t.started || starts)
            && (u.completed <==> left && t.cursor >= |t.commands|)
            && u.cursor == (if starts || (left && !u.completed) then t.cursor + 1 else t.cursor)
            && u.recovery == (if Retries(t) || Skips(t) then "" else t.recovery)
            && u.error == (if Retries(t) || Skips(t) || u.completed then None
                           else if Dies(operation, t) then Some(IndexOutOfRange)
                           else if RunsIt(operation, t) && !ok then Some(ExecutionError(t.cursor))
                           else t.error)
            && (u.paused <==>
                  operation.paused || (left && !Skips(t) && !u.completed && operation.mode == "Controlled"))
            && (if Dies(operation, t) then u.phase == t.phase
                else PhaseTells(u.phase, u.error.Some?, u.completed, u.paused, u.started))
    ensures RanBy(operation, t) == (if RunsIt(operation, t) then [CommandRef(t.group, t.node, t.cursor)] else [])
    ensures ResolvedBy(operation, t, ok) ==
              if LeavesBehind(operation, t, ok) && 1 <= t.cursor <= |t.commands|
              then [CommandRef(t.group, t.node, t.cursor)] else []
  {
    if Skips(t) {
    } else if Retries(t) {
    } else if operation.paused {
    } else if !t.started {
    } else if operation.mode == "DryRun" {
    } else if !InRange(t) {
    } else if ok {
    } else {
    }
  }

  // ---- calls that fail ----

  /**
   * A failing list leaves a group but for its pause; a failing create costs the task and the phase; a failing patch
   * costs the status and nothing else.
   */
  lemma GroupFaults(
      cfg: Config, c: Cluster, i: nat, operation: OperationState, cached: seq<TaskState>, fault: Fault)
    requires i < |c.groups| && !c.groups[i].completed
    ensures var g := c.groups[i];
            var good := GroupReconciled(cfg, c, i, operation, cached, NO_FAULT);
            var d := GroupReconciled(cfg, c, i, operation, cached, fault);
            && |d.groups| == |c.groups| == |good.groups|
                && d == c.(groups := c.groups[i := d.groups[i]], tasks := d.tasks)
            && (fault.patch ==> d.groups[i] == g)
            && (fault.list || !Listable(g.spec) ==>
                  d.tasks == c.tasks && (!fault.patch ==> d.groups[i] == g.(paused := operation.paused)))
            && (!fault.list ==> d.tasks == if fault.create then c.tasks else good.tasks)
            && (!fault.list && !fault.patch ==>
                  d.groups[i] ==
                    if fault.create && good.tasks != c.tasks then good.groups[i].(phase := g.phase) else good.groups[i])
  {
    hide TaskViews, DesiredNodes, TasksOf, Listable, FindTask, GroupNormal, TypedMode;
    var g := c.groups[i];
    if !fault.list && Listable(g.spec) {
      var w := TaskViews(DesiredNodes(cfg.nodes, g.spec), TasksOf(cached, g.spec));
      var (u, node) := GroupStep(operation, g, w);
      GroupKeepsPhase(operation, g, w);
      if node.Some? {
        var t := NewTask(g.spec, node.value, TypedMode(operation.mode));
        assert |c.tasks + [t]| > |c.tasks|;
      }
    }
  }

  lemma GroupKeepsPhase(operation: OperationState, g: GroupState, w: Views<TaskItem>)
    ensures GroupStep(operation, g, w).0.phase == g.phase
  {
  }

  /** The same for the operation; a failing call for the DaemonSet also comes before everything but the pause. */
  lemma OperationFaults(cfg: Config, c: Cluster, cached: seq<GroupState>, fault: Fault)
    ensures var o := c.operation;
            var good, d := OperationReconciled(cfg, c, cached, NO_FAULT), OperationReconciled(cfg, c, cached, fault);
            && d == c.(operation := d.operation, groups := d.groups, daemonSet := d.daemonSet)
            && d.daemonSet == (if fault.daemonSet then c.daemonSet else good.daemonSet)
            && (fault.patch || o.completed ==> d.operation == o)
            && (fault.daemonSet || fault.list || o.completed ==>
                  d.groups == c.groups
                  && (!fault.patch && !o.completed ==> d.operation == o.(paused := o.specPaused)))
            && (!fault.daemonSet && !fault.list ==>
                  d.groups == (if fault.create then c.groups else good.groups)
                  && (!fault.patch ==>
                        d.operation == if fault.create && good.groups != c.groups
                                       then good.operation.(phase := o.phase) else good.operation))
  {
    hide OperationPlans, DaemonSetShouldBeRunning;
    var o := c.operation;
    if !o.completed {
      var o1 := o.(paused := o.specPaused);
      PlanFaults(cfg, c.(daemonSet := DaemonSetShouldBeRunning(o1)), o1, cached, fault);
    }
  }

  lemma PlanFaults(cfg: Config, c: Cluster, o: OperationState, cached: seq<GroupState>, fault: Fault)
    ensures var good, d := OperationPlans(cfg, c, o, cached, NO_FAULT), OperationPlans(cfg, c, o, cached, fault);
            && d == c.(operation := d.operation, groups := d.groups)
            && good.daemonSet == c.daemonSet
            && (fault.patch ==> d.operation == c.operation)
            && d.groups == (if fault.create then c.groups else good.groups)
            && (!fault.patch ==>
                  d.operation == if fault.create && good.groups != c.groups
                                 then good.operation.(phase := o.phase) else good.operation)
  {
    hide GroupViews, FindGroup, OperationNormal;
    var w := GroupViews(cfg.desired, cached);
    var (u, create) := OperationNormal(w, o.(counters := w.Counters()));
    OperationKeepsPhase(o.(counters := w.Counters()), w);
    if create.Some? { assert |c.groups + [NewGroup(create.value)]| > |c.groups|; }
  }

  lemma OperationKeepsPhase(o: OperationState, w: Views<GroupItem>)
    ensures OperationNormal(w, o).0.phase == o.phase
  {
  }

  /** A failing patch loses the status of a task, not that the command was run. */
  lemma TaskFaults(c: Cluster, i: nat, operation: OperationState, ok: bool, fault: Fault)
    requires i < |c.tasks|
    ensures var good, d := TaskReconciled(c, i, operation, ok, NO_FAULT), TaskReconciled(c, i, operation, ok, fault);
            && d.ran == good.ran && (!fault.patch ==> d == good)
            && (fault.patch ==> d == c.(ran := d.ran))
  {
    hide TaskStep, RanBy, ResolvedBy;
  }

  // ---- completion and pause ----

  /** No completed operation or group is paused. */
  ghost predicate CompletedUnpaused(c: Cluster)
  {
    && (c.operation.completed ==> !c.operation.paused)
    && forall i :: 0 <= i < |c.groups| ==> c.groups[i].completed ==> !c.groups[i].paused
  }

  lemma OperationUnpauses(w: Views<GroupItem>, o: OperationState)
    requires !o.completed
    ensures var u := OperationNormal(w, o).0; u.completed ==> !u.paused
  {
  }

  lemma GroupUnpauses(operation: OperationState, g: GroupState, w: Views<TaskItem>)
    requires !g.completed
    ensures var u := GroupStep(operation, g, w).0; u.completed ==> !u.paused
  {
  }

  lemma StepUnpauses(cfg: Config, c: Cluster, e: Event)
    requires CompletedUnpaused(c)
    ensures CompletedUnpaused(Next(cfg, c, e))
  {
    hide FindGroup, FindTask, TaskReconciled, OperationReconciled, GroupReconciled, CompletedUnpaused;
    match e
    case ReconcileOperation(groups, fault) => OperationStepUnpauses(cfg, c, groups, fault);
    case ReconcileGroup(name, operation, tasks, fault) =>
      var i := FindGroup(c.groups, name);
      if i < |c.groups| { GroupStepUnpauses(cfg, c, i, operation, tasks, fault); }
    case _ => UserLeavesStatus(cfg, c, e);
  }

  lemma OperationStepUnpauses(cfg: Config, c: Cluster, groups: seq<GroupState>, fault: Fault)
    requires CompletedUnpaused(c)
    ensures CompletedUnpaused(OperationReconciled(cfg, c, groups, fault))
  {
    hide OperationNormal, GroupViews, GroupRefused, DaemonSetShouldBeRunning;
    var o := c.operation.(paused := c.operation.specPaused);
    var w := GroupViews(cfg.desired, groups);
    if !o.completed { OperationUnpauses(w, o.(counters := w.Counters())); }
  }

  lemma GroupStepUnpauses(
      cfg: Config, c: Cluster, i: nat, operation: OperationState, tasks: seq<TaskState>, fault: Fault)
    requires i < |c.groups| && CompletedUnpaused(c)
    ensures CompletedUnpaused(GroupReconciled(cfg, c, i, operation, tasks, fault))
  {
    hide GroupStep, TaskViews, DesiredNodes, TasksOf, Listable, TaskRefused, TypedMode;
    if !c.groups[i].completed {
      var spec := c.groups[i].spec;
      GroupUnpauses(operation, c.groups[i], TaskViews(DesiredNodes(cfg.nodes, spec), TasksOf(tasks, spec)));
    }
  }

  lemma UserLeavesStatus(cfg: Config, c: Cluster, e: Event)
    requires CompletedUnpaused(c) && !e.ReconcileOperation? && !e.ReconcileGroup?
    ensures CompletedUnpaused(Next(cfg, c, e))
  {
    hide FindTask, TaskStep, RanBy, ResolvedBy;
  }

  /** In every state of every run a completed operation is not paused, nor is a completed group. */
  lemma {:induction false} RunCompletedUnpaused(cfg: Config, states: seq<Cluster>, events: seq<Event>, i: nat)
    requires IsRun(cfg, states, events) && i <= |events|
    ensures CompletedUnpaused(states[i])
    decreases i
  {
    hide Next, Reads, CompletedUnpaused;
    if i == 0 {
      assert CompletedUnpaused(states[0]) by { InitialUnpaused(states[0]); }
    } else {
      RunCompletedUnpaused(cfg, states, events, i - 1);
      StepUnpauses(cfg, states[i - 1], events[i - 1]);
    }
  }

  lemma InitialUnpaused(c: Cluster)
    requires Initial(c)
    ensures CompletedUnpaused(c)
  {
  }

  /** Only its own reconcile completes a task. */
  lemma TaskCompletes(cfg: Config, c: Cluster, e: Event, j: nat)
    requires j < |Next(cfg, c, e).tasks| && Next(cfg, c, e).tasks[j].completed
    requires j < |c.tasks| ==> !c.tasks[j].completed
    ensures j < |c.tasks| && e.ReconcileTask?
    ensures Next(cfg, c, e).tasks[j] == TaskStep(e.operation, c.tasks[j], e.ok)
  {
    hide OperationReconciled, GroupReconciled, TaskStep, RanBy, ResolvedBy, FindTask, FindGroup;
    match e
    case ReconcileOperation(groups, fault) => OperationFrame(cfg, c, groups, fault);
    case ReconcileGroup(name, operation, tasks, fault) =>
      var i := FindGroup(c.groups, name);
      if i < |c.groups| { GroupFrame(cfg, c, i, operation, tasks, fault); }
    case ReconcileTask(_, _, _, _, _) =>
    case SetPaused(_) =>
    case SetRecovery(_, _) =>
  }

  /**
   * A completed task is paused exactly if the reconcile that completed it read a paused operation, and then it was a
   * skip of the last command.
   */
  lemma {:induction false} RunPausedCompletion(cfg: Config, states: seq<Cluster>, events: seq<Event>, i: nat, j: nat)
    returns (k: nat)
    requires ProperRun(cfg, states, events) && i <= |events| && j < |states[i].tasks| && states[i].tasks[j].completed
    ensures k < i && j < |states[k].tasks| && !states[k].tasks[j].completed && events[k].ReconcileTask?
    ensures j < |states[k + 1].tasks| && states[k + 1].tasks[j].completed
    ensures states[i].tasks[j].paused <==> events[k].operation.paused && Skips(states[k].tasks[j])
    decreases i
  {
    hide Planned, InvOf, Next, SelectorsSingle, Reads, ReadsInTime, GroupsEvolve, Skips;
    RunKeeps(cfg, states, events);
    k := i - 1;
    if j < |states[k].tasks| && states[k].tasks[j].completed {
      assert Evolves(states[k], states[i]);
      k := RunPausedCompletion(cfg, states, events, k, j);
    } else {
      TaskCompletes(cfg, states[k], events[k], j);
      CompletedPause(events[k].operation, states[k].tasks[j], events[k].ok);
    }
  }

  lemma CompletedPause(operation: OperationState, t: TaskState, ok: bool)
    requires !t.completed && TaskStep(operation, t, ok).completed
    ensures TaskStep(operation, t, ok).paused <==> operation.paused && Skips(t)
  {
    hide TaskStep, RanBy, ResolvedBy;
    TaskReconcileDoes(operation, t, ok);
  }
}
