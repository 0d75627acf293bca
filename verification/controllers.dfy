/** The three controllers as they run: objects fetched from the API server, changed step by step, and patched back. */
module Controllers {
  import opened Names
  import opened Api
  import opened Matching
  import opened Machine
  import opened Lists

  // ---- the API server ----

  /** The stored objects, with two histories that only the specification looks at. */
  class ApiServer {
    var operation: OperationState
    var groups: seq<GroupState>
    var tasks: seq<TaskState>
    var daemonSet: bool
    ghost var ran: seq<CommandRef>
    ghost var resolved: seq<CommandRef>

    ghost function View(): Cluster
      reads this
    {
      Cluster(operation, groups, tasks, daemonSet, ran, resolved)
    }

    constructor (operation: OperationState)
      ensures View() == Cluster(operation, [], [], false, [], [])
    {
      this.operation, groups, tasks, daemonSet := operation, [], [], false;
      ran, resolved := [], [];
    }

    /** Create is refused when the call fails or the name is taken. */
    method CreateGroup(g: GroupState, fault: Fault) returns (ok: bool)
      modifies this`groups
      ensures ok <==> !GroupRefused(old(View()), g.spec, fault)
      ensures groups == if ok then old(groups) + [g] else old(groups)
    {
      var i := FindGroup(groups, g.spec.name);
      ok := !fault.create && i == |groups|;
      if ok { groups := groups + [g]; }
    }

    method CreateTask(t: TaskState, fault: Fault) returns (ok: bool)
      modifies this`tasks
      ensures ok <==> !TaskRefused(old(View()), t.name, fault)
      ensures tasks == if ok then old(tasks) + [t] else old(tasks)
    {
      var i := FindTask(tasks, t.name);
      ok := !fault.create && i == |tasks|;
      if ok { tasks := tasks + [t]; }
    }
  }

  // ---- RuntimeTask ----

  class RuntimeTask {
    const name: string
    const group: string
    const labels: Labels
    const node: string
    const commands: seq<Command>
    var recovery: string
    var started: bool
    var cursor: nat
    var paused: bool
    var completed: bool
    var error: Option<TaskError>
    var phase: Phase

    function State(): TaskState
      reads this
    {
      TaskState(name, group, labels, node, recovery, commands, started, cursor, paused, completed, error, phase)
    }

    constructor (t: TaskState)
      ensures State() == t
    {
      name, group, labels, node, commands := t.name, t.group, t.labels, t.node, t.commands;
      recovery, started, cursor, paused, completed := t.recovery, t.started, t.cursor, t.paused, t.completed;
      error, phase := t.error, t.phase;
    }

    method SetStartTime()
      modifies this`started
      ensures started
    {
      started := true;
    }

    method NextCurrentCommand()
      modifies this`cursor
      ensures cursor == old(cursor) + 1
    {
      cursor := cursor + 1;
    }

    method SetCompletionTime()
      modifies this`completed, this`paused, this`error
      ensures State() == CompleteTask(old(State()))
      ensures completed && !paused && error.None?
    {
      completed := true;
      paused := false;
      ResetError();
    }

    method SetError(e: TaskError)
      modifies this`error
      ensures error == Some(e)
    {
      error := Some(e);
    }

    method ResetError()
      modifies this`error
      ensures error == None
    {
      error := None;
    }
  }

  predicate Retry(recovery: string) { recovery == "RetryFailedCommand" }

  predicate Skip(recovery: string) { recovery == "SkipFailedCommand" }

  /** The agent of one node. */
  class RuntimeTaskReconciler {
    const nodeName: string

    constructor (nodeName: string)
      ensures this.nodeName == nodeName
    {
      this.nodeName := nodeName;
    }

    method ReconcileRecovery(mode: Mode, task: RuntimeTask) returns (recovered: bool)
      modifies task
      ensures recovered == Recovers(old(task.State()))
      ensures task.State() == if recovered then Recovered(mode, old(task.State())) else old(task.State())
      ensures recovered <==> old(task.error.Some? && (Retry(task.recovery) || Skip(task.recovery)))
      ensures recovered ==> task.error.None? && task.recovery == ""
      ensures recovered && old(Retry(task.recovery)) ==>
                unchanged(task`cursor) && unchanged(task`completed) && unchanged(task`paused)
      ensures recovered && old(Skip(task.recovery)) ==>
                var last := old(task.cursor >= |task.commands|);
                && task.cursor == (if last then old(task.cursor) else old(task.cursor) + 1)
                && task.completed == (last || old(task.completed))
                && task.paused == (!last && (old(task.paused) || mode == Controlled))
    {
      if task.error.None? {
        return false;
      }
      if TypedRecovery(task.recovery) == UnknownStrategy {
        return false;
      }
      if TypedRecovery(task.recovery) == SkipFailedCommand {
        if task.cursor >= |task.commands| {
          task.SetCompletionTime();
        } else {
          task.NextCurrentCommand();
          if mode == Controlled {
            task.paused := true;
          }
        }
      }
      task.ResetError();
      task.recovery := "";
      return true;
    }

    method ReconcilePauseOverride(operationPaused: bool, task: RuntimeTask)
      modifies task`paused
      ensures task.paused == operationPaused
    {
      task.paused := operationPaused;
    }

    /**
     * `ok` is what the command answers when it is run. A lookup out of range kills the process, after the
     * error is set: `panicked`.
     */
    method ReconcileNormal(mode: Mode, task: RuntimeTask, ok: bool) returns (ran: seq<CommandRef>, panicked: bool)
      modifies task
      ensures task.State() == TaskNormal(mode, old(task.State()), ok)
      ensures var t := old(task.State());
              var reached := !t.paused && t.started && mode != DryRun;
              ran == (if reached && InRange(t) then [Current(t)] else []) && panicked == (reached && !InRange(t))
    {
      ran, panicked := [], false;
      if task.paused {
        return;
      }
      if !task.started {
        task.SetStartTime();
        task.NextCurrentCommand();
        return;
      }
      if mode != DryRun {
        var index := task.cursor - 1;
        if index < 0 || index >= |task.commands| {
          task.SetError(IndexOutOfRange);
          panicked := true;
          return;
        }
        ran := [Current(task.State())];
        if !ok {
          task.SetError(ExecutionError(task.cursor));
          return;
        }
      }
      if task.cursor >= |task.commands| {
        task.SetCompletionTime();
        return;
      }
      task.NextCurrentCommand();
      if mode == Controlled {
        task.paused := true;
      }
    }

    method ReconcilePhase(task: RuntimeTask)
      modifies task`phase
      ensures task.State() == PhasedTask(old(task.State()))
    {
      if task.error.Some? {
        task.phase := PhaseFailed;
      } else if task.completed {
        task.phase := PhaseSucceeded;
      } else if task.paused {
        task.phase := PhasePaused;
      } else if task.started {
        task.phase := PhaseRunning;
      } else {
        task.phase := PhasePending;
      }
    }

    method ReconcileTask(operation: OperationState, task: RuntimeTask, ok: bool) returns (ran: seq<CommandRef>)
      requires !task.completed
      modifies task
      ensures task.State() == TaskStep(operation, old(task.State()), ok)
      ensures ran == RanBy(operation, old(task.State()))
    {
      hide TypedMode, TypedRecovery, Recovered, TaskNormal, PhasedTask;
      var mode := TypedMode(operation.mode);
      ran := [];
      var recovered := ReconcileRecovery(mode, task);
      ReconcilePauseOverride(operation.paused, task);
      if !recovered {
        var panicked;
        ran, panicked := ReconcileNormal(mode, task, ok);
        if panicked {
          return;
        }
      }
      ReconcilePhase(task);
    }

    method Reconcile(api: ApiServer, name: string, operation: OperationState, ok: bool, fault: Fault, ghost cfg: Config)
      modifies api
      ensures api.View() == Next(cfg, old(api.View()), Event.ReconcileTask(nodeName, name, operation, ok, fault))
    {
      hide TaskStep, RanBy, ResolvedBy, FindTask;
      var i := FindTask(api.tasks, name);
      if i == |api.tasks| {
        return;
      }
      if api.tasks[i].node != nodeName {
        return;
      }
      if api.tasks[i].completed {
        CompletedIsLeft(operation, api.tasks[i], ok);
        assert api.tasks[i := api.tasks[i]] == api.tasks;
        return;
      }
      var task := new RuntimeTask(api.tasks[i]);
      var ran := ReconcileTask(operation, task, ok);
      api.ran := api.ran + ran;
      if !fault.patch {
        api.resolved := api.resolved + ResolvedBy(operation, api.tasks[i], ok);
        api.tasks := api.tasks[i := task.State()];
      }
    }
  }

  lemma CompletedIsLeft(operation: OperationState, t: TaskState, ok: bool)
    requires t.completed
    ensures TaskStep(operation, t, ok) == t && RanBy(operation, t) == [] && ResolvedBy(operation, t, ok) == []
  {
    hide TypedMode, TypedRecovery;
  }

  // ---- RuntimeTaskGroup ----

  class RuntimeTaskGroup {
    const spec: GroupSpec
    var started: bool
    var paused: bool
    var completed: bool
    var counters: Counters
    var error: Option<ReconcileError>
    var phase: Phase

    function State(): GroupState
      reads this
    {
      GroupState(spec, started, paused, completed, counters, error, phase)
    }

    constructor (g: GroupState)
      ensures State() == g
    {
      spec, started, paused, completed := g.spec, g.started, g.paused, g.completed;
      counters, error, phase := g.counters, g.error, g.phase;
    }

    method SetStartTime()
      modifies this`started
      ensures started
    {
      started := true;
    }

    method SetCompletionTime()
      modifies this`completed, this`paused, this`error
      ensures State() == CompleteGroup(old(State()))
      ensures completed && !paused && error.None?
    {
      completed := true;
      paused := false;
      error := None;
    }

    method SetError(e: ReconcileError)
      modifies this`error
      ensures error == Some(e)
    {
      error := Some(e);
    }

    method ResetError()
      modifies this`error
      ensures error == None
    {
      error := None;
    }
  }

  /** The nodes that a list call returned. */
  class NodeList {
    var items: seq<Node>

    constructor (items: seq<Node>)
      ensures this.items == items
    {
      this.items := items;
    }

    /** Sorts the list in place unless all of it is wanted. */
    method FilterNodes(filter: NodeFilter) returns (r: seq<Node>)
      modifies this
      ensures r == Machine.FilterNodes(old(items), filter)
      ensures items ==
                if filter == FilterHead || filter == FilterTail then SortBy(NodeName(), old(items)) else old(items)
    {
      if |items| == 0 {
        return items;
      }
      if filter == FilterAll || filter == UnknownFilter {
        return items;
      }
      SortByProperties(NodeName(), items);
      items := SortBy(NodeName(), items);
      if filter == FilterHead {
        return items[..1];
      }
      return items[1..];
    }
  }

  class RuntimeTaskGroupReconciler {
    /** The nodes in the cluster. */
    const nodes: seq<Node>

    constructor (nodes: seq<Node>)
      ensures this.nodes == nodes
    {
      this.nodes := nodes;
    }

    method ReconcilePauseOverride(operationPaused: bool, taskgroup: RuntimeTaskGroup)
      modifies taskgroup`paused
      ensures taskgroup.paused == operationPaused
    {
      taskgroup.paused := operationPaused;
    }

    /** None when the selector cannot be read as one. */
    method ListNodesBySelector(selector: LabelSelector) returns (list: Option<NodeList>)
      ensures list.Some? <==> IsSelector(selector)
      ensures list.Some? ==> fresh(list.value) && list.value.items == SelectNodes(nodes, selector)
    {
      if !IsSelector(selector) {
        return None;
      }
      var r: seq<Node> := [];
      for i := 0 to |nodes|
        invariant r == SelectNodes(nodes[..i], selector)
      {
        assert nodes[..i + 1][..i] == nodes[..i];
        if Selects(selector, nodes[i].labels) {
          r := r + [nodes[i]];
        }
      }
      assert nodes[..|nodes|] == nodes;
      var items := new NodeList(r);
      list := Some(items);
    }

    /** None when the selector cannot be turned into labels. */
    method ListTasksBySelector(spec: GroupSpec, cached: seq<TaskState>) returns (list: Option<seq<TaskState>>)
      ensures list == if SelectorMap(spec.selector).Some? then Some(TasksOf(cached, spec)) else None
    {
      var wanted := SelectorMap(spec.selector);
      if wanted.None? {
        return None;
      }
      var r: seq<TaskState> := [];
      for i := 0 to |cached|
        invariant r == ListTasks(cached[..i], wanted.value)
      {
        assert cached[..i + 1][..i] == cached[..i];
        if MatchesLabels(wanted.value, cached[i].labels) {
          r := r + [cached[i]];
        }
      }
      assert cached[..|cached|] == cached;
      list := Some(r);
    }

    /** `cached` is the informer's list of tasks; None when one of the two lists cannot be asked for. */
    method ReconcileTasks(taskgroup: RuntimeTaskGroup, cached: seq<TaskState>)
      returns (tasks: Option<TaskReconcileList>)
      modifies taskgroup`counters
      ensures tasks.Some? <==> Listable(taskgroup.spec)
      ensures tasks.None? ==> taskgroup.counters == old(taskgroup.counters)
      ensures tasks.Some? ==>
                && fresh(tasks.value) && taskgroup.counters == tasks.value.Lists().Counters()
                && tasks.value.Lists() ==
                    TaskViews(DesiredNodes(nodes, taskgroup.spec), TasksOf(cached, taskgroup.spec))
    {
      hide TaskViews, SelectNodes, TasksOf, FilterNodes, TypedFilter, IsSelector, SelectorMap;
      var selected := ListNodesBySelector(taskgroup.spec.nodeSelector);
      if selected.None? {
        return None;
      }
      var desired := selected.value.FilterNodes(TypedFilter(taskgroup.spec.nodeFilter));
      var current := ListTasksBySelector(taskgroup.spec, cached);
      if current.None? {
        return None;
      }
      var matched := Lists.ReconcileTasks(desired, current.value);
      taskgroup.counters :=
        Counters(|matched.all|, |matched.running|, |matched.completed|, |matched.failed|, |matched.invalid|);
      tasks := Some(matched);
    }

    method CreateTasksReplica(api: ApiServer, mode: Mode, taskgroup: RuntimeTaskGroup, nodeName: string, fault: Fault)
      returns (ok: bool)
      modifies api`tasks
      ensures ok <==> !TaskRefused(old(api.View()), TaskName(taskgroup.spec.name, nodeName), fault)
      ensures api.tasks == if ok then old(api.tasks) + [NewTask(taskgroup.spec, nodeName, mode)] else old(api.tasks)
    {
      var paused := false;
      if mode == Controlled {
        paused := true;
      }
      var task := TaskState(
        taskgroup.spec.name + "-" + nodeName, taskgroup.spec.name, taskgroup.spec.labels, nodeName, "",
          taskgroup.spec.commands,
        false, 0, paused, false, None, PhasePending);
      ok := api.CreateTask(task, fault);
    }

    /** `ok` is false when creating a task failed. */
    method ReconcileNormal(
        api: ApiServer, mode: Mode, taskgroup: RuntimeTaskGroup, tasks: TaskReconcileList, fault: Fault)
      returns (ok: bool)
      requires forall i :: 0 <= i < |tasks.tobeCreated| ==> tasks.tobeCreated[i].node.Some?
      requires forall i :: 0 <= i < |tasks.tobeCreated| ==>
          tasks.tobeCreated[i].node.value.name == tasks.tobeCreated[i].name
      modifies api`tasks, taskgroup`error, taskgroup`started, taskgroup`completed, taskgroup`paused
      ensures var (g, create) := GroupNormal(old(tasks.Lists()), old(taskgroup.State()));
              && taskgroup.State() == g
              && (create.None? ==> ok && api.tasks == old(api.tasks))
              && (create.Some? ==>
                    && (ok <==> !TaskRefused(old(api.View()), TaskName(taskgroup.spec.name, create.value), fault))
                    && api.tasks == if ok then old(api.tasks) + [NewTask(taskgroup.spec, create.value, mode)]
                        else old(api.tasks))
    {
      hide TaskRefused, TaskName, NewTask;
      ok := true;
      var active := tasks.ActiveTasks();
      if active > 0 {
        taskgroup.ResetError();
      } else {
        if |tasks.invalid| > 0 {
          taskgroup.SetError(ReconciliationError);
          return;
        }
        if |tasks.failed| > 0 {
          taskgroup.SetError(ReplicaError);
          return;
        }
      }
      if !taskgroup.started {
        taskgroup.SetStartTime();
        return;
      }
      if |tasks.completed| == |tasks.all| {
        taskgroup.SetCompletionTime();
        return;
      }
      if taskgroup.paused {
        return;
      }
      if |tasks.tobeCreated| > 0 {
        if active == 0 {
          var nextNode := tasks.tobeCreated[0].node.value.name;
          ok := CreateTasksReplica(api, mode, taskgroup, nextNode, fault);
        }
      }
    }

    method ReconcilePhase(taskgroup: RuntimeTaskGroup)
      modifies taskgroup`phase
      ensures taskgroup.State() == PhasedGroup(old(taskgroup.State()))
    {
      if taskgroup.error.Some? {
        taskgroup.phase := PhaseFailed;
      } else if taskgroup.completed {
        taskgroup.phase := PhaseSucceeded;
      } else if taskgroup.paused {
        taskgroup.phase := PhasePaused;
      } else if taskgroup.started {
        taskgroup.phase := PhaseRunning;
      } else {
        taskgroup.phase := PhasePending;
      }
    }

    method ReconcileTaskGroup(
      api: ApiServer, i: nat, taskgroup: RuntimeTaskGroup, operation: OperationState, cached: seq<TaskState>,
      fault: Fault, ghost cfg: Config)
      requires cfg.nodes == nodes && i < |api.groups| && taskgroup.State() == api.groups[i] && !taskgroup.completed
      modifies api`tasks, taskgroup
      ensures api.groups == old(api.groups)
      ensures (if fault.patch then api.View() else api.View().(groups := api.groups[i := taskgroup.State()]))
              == GroupReconciled(cfg, old(api.View()), i, operation, cached, fault)
    {
      hide TaskViews, DesiredNodes, Listable, TasksOf, GroupNormal, TaskRefused, NewTask, TypedMode, TaskName,
           PhasedGroup;
      ReconcilePauseOverride(operation.paused, taskgroup);
      if fault.list {
        return;
      }
      var listed := ReconcileTasks(taskgroup, cached);
      if listed.None? {
        return;
      }
      var tasks := listed.value;
      ToBeCreatedHaveNodes(DesiredNodes(nodes, taskgroup.spec), TasksOf(cached, taskgroup.spec));
      ghost var g := api.groups[i];
      ghost var (g1, create) := GroupStep(operation, g, tasks.Lists());
      assert taskgroup.State() == g.(paused := operation.paused, counters := tasks.Lists().Counters());
      var ok := ReconcileNormal(api, TypedMode(operation.mode), taskgroup, tasks, fault);
      if ok {
        ReconcilePhase(taskgroup);
      }
      assert taskgroup.State() == if ok then PhasedGroup(g1) else g1;
    }

    method Reconcile(
        api: ApiServer, name: string, operation: OperationState, cached: seq<TaskState>, fault: Fault,
        ghost cfg: Config)
      requires cfg.nodes == nodes
      modifies api
      ensures api.View() == Next(cfg, old(api.View()), Event.ReconcileGroup(name, operation, cached, fault))
    {
      hide FindGroup, TaskViews, DesiredNodes, Listable, TasksOf, GroupStep, GroupActs, TypedMode;
      var i := FindGroup(api.groups, name);
      if i == |api.groups| {
        return;
      }
      if api.groups[i].completed {
        return;
      }
      var taskgroup := new RuntimeTaskGroup(api.groups[i]);
      ReconcileTaskGroup(api, i, taskgroup, operation, cached, fault, cfg);
      if !fault.patch {
        api.groups := api.groups[i := taskgroup.State()];
      }
    }
  }

  /** An item to be created has a node, and is called like it. */
  lemma ToBeCreatedHaveNodes(nodes: seq<Node>, tasks: seq<TaskState>)
    ensures var l := TaskViews(nodes, tasks).tobeCreated;
            forall i :: 0 <= i < |l| ==> l[i].node.Some? && l[i].node.value.name == l[i].name
  {
    hide TypedRecovery;
    var all := MatchTasks(nodes, tasks);
    forall i | 0 <= i < |Pick(TaskClass, ToBeCreated, all)|
      ensures var x := Pick(TaskClass, ToBeCreated, all)[i]; x.node.Some? && x.node.value.name == x.name
    {
      PickSound(TaskClass, ToBeCreated, all, i);
      var x := Pick(TaskClass, ToBeCreated, all)[i];
      LastNodeFound(nodes, x.name);
    }
  }

  // ---- Operation ----

  class Operation {
    const specPaused: bool
    const mode: string
    var started: bool
    var paused: bool
    var completed: bool
    var counters: Counters
    var error: Option<ReconcileError>
    var phase: Phase

    function State(): OperationState
      reads this
    {
      OperationState(specPaused, mode, started, paused, completed, counters, error, phase)
    }

    constructor (o: OperationState)
      ensures State() == o
    {
      specPaused, mode, started, paused, completed := o.specPaused, o.mode, o.started, o.paused, o.completed;
      counters, error, phase := o.counters, o.error, o.phase;
    }

    method SetStartTime()
      modifies this`started
      ensures started
    {
      started := true;
    }

    method SetCompletionTime()
      modifies this`completed, this`paused, this`error
      ensures State() == CompleteOperation(old(State()))
      ensures completed && !paused && error.None?
    {
      completed := true;
      paused := false;
      error := None;
    }

    method SetError(e: ReconcileError)
      modifies this`error
      ensures error == Some(e)
    {
      error := Some(e);
    }

    method ResetError()
      modifies this`error
      ensures error == None
    {
      error := None;
    }
  }

  class OperationReconciler {
    /** The groups that the operation plans. */
    const desired: seq<GroupSpec>

    constructor (desired: seq<GroupSpec>)
      ensures this.desired == desired
    {
      this.desired := desired;
    }

    /** `ok` is false when a call failed, and then nothing is created or deleted. */
    method ReconcileDaemonSet(api: ApiServer, operation: Operation, fault: Fault) returns (ok: bool)
      modifies api`daemonSet
      ensures ok <==> !fault.daemonSet
      ensures api.daemonSet == if ok then DaemonSetShouldBeRunning(operation.State()) else old(api.daemonSet)
    {
      ok := !fault.daemonSet;
      if !ok {
        return;
      }
      if api.daemonSet {
        if DaemonSetShouldBeRunning(operation.State()) {
          return;
        }
        api.daemonSet := false;
        return;
      }
      if !DaemonSetShouldBeRunning(operation.State()) {
        return;
      }
      api.daemonSet := true;
    }

    method ReconcilePause(operation: Operation)
      modifies operation`paused
      ensures operation.paused == operation.specPaused
    {
      operation.paused := operation.specPaused;
    }

    method ReconcileTaskGroups(operation: Operation, cached: seq<GroupState>)
      returns (taskGroups: TaskGroupReconcileList)
      modifies operation`counters
      ensures fresh(taskGroups) && taskGroups.Lists() == GroupViews(desired, cached)
      ensures operation.counters == taskGroups.Lists().Counters()
    {
      hide GroupViews;
      taskGroups := Lists.ReconcileTaskGroups(desired, cached);
      operation.counters :=
        Counters(|taskGroups.all|, |taskGroups.running|, |taskGroups.completed|, |taskGroups.failed|,
          |taskGroups.invalid|);
    }

    method ReconcileNormal(api: ApiServer, operation: Operation, taskGroups: TaskGroupReconcileList, fault: Fault)
      returns (ok: bool)
      requires forall i :: 0 <= i < |taskGroups.tobeCreated| ==> taskGroups.tobeCreated[i].planned.Some?
      modifies api`groups, operation`error, operation`started, operation`completed, operation`paused
      ensures var (o, create) := OperationNormal(old(taskGroups.Lists()), old(operation.State()));
              && operation.State() == o
              && (create.None? ==> ok && api.groups == old(api.groups))
              && (create.Some? ==>
                    && (ok <==> !GroupRefused(old(api.View()), create.value, fault))
                    && api.groups == if ok then old(api.groups) + [NewGroup(create.value)] else old(api.groups))
    {
      hide GroupRefused;
      ok := true;
      var active := taskGroups.ActiveTaskGroups();
      if active > 0 {
        operation.ResetError();
      } else {
        if |taskGroups.invalid| > 0 {
          operation.SetError(ReconciliationError);
          return;
        }
        if |taskGroups.failed| > 0 {
          operation.SetError(ReplicaError);
          return;
        }
      }
      if !operation.started {
        operation.SetStartTime();
        return;
      }
      if |taskGroups.completed| == |taskGroups.all| {
        operation.SetCompletionTime();
      }
      if operation.paused {
        return;
      }
      if |taskGroups.tobeCreated| > 0 {
        if active == 0 {
          var nextTaskGroup := NewGroup(taskGroups.tobeCreated[0].planned.value);
          ok := api.CreateGroup(nextTaskGroup, fault);
        }
      }
    }

    method ReconcilePhase(operation: Operation)
      modifies operation`phase
      ensures operation.State() == PhasedOperation(old(operation.State()))
    {
      if operation.error.Some? {
        operation.phase := PhaseFailed;
      } else if operation.completed {
        operation.phase := PhaseSucceeded;
      } else if operation.paused {
        operation.phase := PhasePaused;
      } else if operation.started {
        operation.phase := PhaseRunning;
      } else {
        operation.phase := PhasePending;
      }
    }

    /** The part of an operation reconcile that looks at the groups. */
    method ReconcilePlan(api: ApiServer, operation: Operation, cached: seq<GroupState>, fault: Fault, ghost cfg: Config)
      requires cfg.desired == desired
      modifies api`groups, operation
      ensures (if fault.patch then api.View() else api.View().(operation := operation.State()))
              == OperationPlans(cfg, old(api.View()), old(operation.State()), cached, fault)
    {
      hide GroupViews, OperationNormal, OperationPlans, GroupRefused, PhasedOperation, NewGroup;
      ghost var c, o := api.View(), operation.State();
      var taskGroups := ReconcileTaskGroups(operation, cached);
      ToBeCreatedArePlanned(desired, cached);
      ghost var (o1, create) := OperationNormal(taskGroups.Lists(), operation.State());
      var ok := ReconcileNormal(api, operation, taskGroups, fault);
      assert operation.State() == o1;
      if ok {
        ReconcilePhase(operation);
      }
      assert operation.State() == if ok then PhasedOperation(o1) else o1;
      PlansWritten(cfg, c, o, cached, fault, ok, api.View(), operation.State());
    }

    method ReconcileOperation(
        api: ApiServer, operation: Operation, cached: seq<GroupState>, fault: Fault, ghost cfg: Config)
      requires cfg.desired == desired && operation.State() == api.operation && !operation.completed
      modifies api`daemonSet, api`groups, operation
      ensures (if fault.patch then api.View() else api.View().(operation := operation.State()))
              == OperationReconciled(cfg, old(api.View()), cached, fault)
    {
      hide OperationPlans, DaemonSetShouldBeRunning;
      ReconcilePause(operation);
      var ok := ReconcileDaemonSet(api, operation, fault);
      if !ok || fault.list {
        return;
      }
      ReconcilePlan(api, operation, cached, fault, cfg);
    }

    method Reconcile(api: ApiServer, cached: seq<GroupState>, fault: Fault, ghost cfg: Config)
      requires cfg.desired == desired
      modifies api
      ensures api.View() == Next(cfg, old(api.View()), Event.ReconcileOperation(cached, fault))
    {
      hide OperationPlans;
      var operation := new Operation(api.operation);
      if operation.completed {
        var ok := ReconcileDaemonSet(api, operation, fault);
        return;
      }
      ReconcileOperation(api, operation, cached, fault, cfg);
      if !fault.patch {
        api.operation := operation.State();
      }
    }
  }

  /** The second half of an operation reconcile, put together from what its parts did. */
  lemma PlansWritten(
    cfg: Config, c: Cluster, o: OperationState, groups: seq<GroupState>, fault: Fault, ok: bool, d: Cluster,
    o2: OperationState)
    requires var w := GroupViews(cfg.desired, groups);
             var (o1, create) := OperationNormal(w, o.(counters := w.Counters()));
             && (ok <==> create.Some? ==> !GroupRefused(c, create.value, fault))
             && o2 == (if ok then PhasedOperation(o1) else o1)
             && d == (if create.Some? && ok then c.(groups := c.groups + [NewGroup(create.value)]) else c)
    ensures (if fault.patch then d else d.(operation := o2)) == OperationPlans(cfg, c, o, groups, fault)
  {
    hide GroupViews, OperationNormal, GroupRefused, PhasedOperation, NewGroup;
    var w := GroupViews(cfg.desired, groups);
    var (o1, create) := OperationNormal(w, o.(counters := w.Counters()));
    if create.None? {
    } else if GroupRefused(c, create.value, fault) {
    } else {
      assert OperationPlans(cfg, c, o, groups, fault) == PatchOperation(d, PhasedOperation(o1), fault);
    }
  }

  lemma ToBeCreatedArePlanned(desired: seq<GroupSpec>, groups: seq<GroupState>)
    ensures var l := GroupViews(desired, groups).tobeCreated;
            forall i :: 0 <= i < |l| ==> l[i].planned.Some?
  {
    hide MatchGroups;
    var all := MatchGroups(desired, groups);
    forall i | 0 <= i < |Pick(GroupClass, ToBeCreated, all)|
      ensures Pick(GroupClass, ToBeCreated, all)[i].planned.Some?
    {
      PickSound(GroupClass, ToBeCreated, all, i);
    }
  }
}
