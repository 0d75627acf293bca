/** One reconcile of each controller, and one user move, as functions of what they read and the stored state. */
module Machine {
  import opened Names
  import opened Api
  import opened Matching

  // ---- status mutators ----

  function CompleteTask(t: TaskState): TaskState
  {
    t.(completed := true, paused := false, error := None)
  }

  function CompleteGroup(g: GroupState): GroupState
  {
    g.(completed := true, paused := false, error := None)
  }

  function CompleteOperation(o: OperationState): OperationState
  {
    o.(completed := true, paused := false, error := None)
  }

  function PhasedTask(t: TaskState): TaskState
  {
    t.(phase := PhaseOf(t.error.Some?, t.completed, t.paused, t.started))
  }

  function PhasedGroup(g: GroupState): GroupState
  {
    g.(phase := PhaseOf(g.error.Some?, g.completed, g.paused, g.started))
  }

  function PhasedOperation(o: OperationState): OperationState
  {
    o.(phase := PhaseOf(o.error.Some?, o.completed, o.paused, o.started))
  }

  // ---- the task controller ----

  /** There is an error and the user has chosen a known way out of it. */
  predicate Recovers(t: TaskState)
  {
    t.error.Some? && TypedRecovery(t.recovery) != UnknownStrategy
  }

  function Recovered(mode: Mode, t: TaskState): TaskState
    requires Recovers(t)
  {
    var t1 :=
      if TypedRecovery(t.recovery) != SkipFailedCommand then t
      else if t.cursor >= |t.commands| then CompleteTask(t)
      else t.(cursor := t.cursor + 1, paused := t.paused || mode == Controlled);
    t1.(error := None, recovery := "")
  }

  /** The cursor, which counts from 1, names a command. */
  predicate InRange(t: TaskState)
  {
    1 <= t.cursor <= |t.commands|
  }

  /** After a successful command: done, or on to the next one. */
  function Advanced(mode: Mode, t: TaskState): TaskState
  {
    if t.cursor >= |t.commands| then CompleteTask(t)
    else t.(cursor := t.cursor + 1, paused := t.paused || mode == Controlled)
  }

  function TaskNormal(mode: Mode, t: TaskState, ok: bool): TaskState
  {
    if t.paused then t
    else if !t.started then t.(started := true, cursor := t.cursor + 1)
    else if mode == DryRun then Advanced(mode, t)
    else if !InRange(t) then t.(error := Some(IndexOutOfRange))
    else if ok then Advanced(mode, t)
    else t.(error := Some(ExecutionError(t.cursor)))
  }

  /** The reconcile goes on to execute, or pretend to execute, the current command. */
  predicate Executes(operation: OperationState, t: TaskState)
  {
    !t.completed && !Recovers(t) && !operation.paused && t.started
  }

  /** The command lookup is out of range: the agent process dies after the deferred patch. */
  predicate Panics(operation: OperationState, t: TaskState)
  {
    Executes(operation, t) && TypedMode(operation.mode) != DryRun && !InRange(t)
  }

  function TaskStep(operation: OperationState, t: TaskState, ok: bool): TaskState
  {
    var mode := TypedMode(operation.mode);
    if t.completed then t
    else if Recovers(t) then PhasedTask(Recovered(mode, t).(paused := operation.paused))
    else
      var t1 := TaskNormal(mode, t.(paused := operation.paused), ok);
      if Panics(operation, t) then t1 else PhasedTask(t1)
  }

  datatype CommandRef = CommandRef(group: string, node: string, index: nat)

  function Current(t: TaskState): CommandRef { CommandRef(t.group, t.node, t.cursor) }

  /** The command this reconcile hands to RunCommand, if any. */
  function RanBy(operation: OperationState, t: TaskState): seq<CommandRef>
  {
    if Executes(operation, t) && TypedMode(operation.mode) != DryRun && InRange(t) then [Current(t)] else []
  }

  /** The command this reconcile leaves behind, as succeeded, rehearsed or skipped, if any. */
  function ResolvedBy(operation: OperationState, t: TaskState, ok: bool): seq<CommandRef>
  {
    if t.completed || !InRange(t) then []
    else if Recovers(t) then (if TypedRecovery(t.recovery) == SkipFailedCommand then [Current(t)] else [])
    else if Executes(operation, t) && (TypedMode(operation.mode) == DryRun || ok) then [Current(t)]
    else []
  }

  // ---- the group controller ----

  /** The nodes a group wants a task on. */
  function SelectNodes(nodes: seq<Node>, s: LabelSelector): seq<Node>
  {
    if nodes == [] then []
    else SelectNodes(nodes[..|nodes| - 1], s)
         + (if Selects(s, nodes[|nodes| - 1].labels) then [nodes[|nodes| - 1]] else [])
  }

  function FilterNodes(nodes: seq<Node>, filter: NodeFilter): seq<Node>
  {
    if nodes == [] || filter == FilterAll || filter == UnknownFilter then nodes
    else
      SortByProperties(NodeName(), nodes);
      var sorted := SortBy(NodeName(), nodes);
      if filter == FilterHead then sorted[..1] else sorted[1..]
  }

  function DesiredNodes(nodes: seq<Node>, spec: GroupSpec): seq<Node>
  {
    FilterNodes(SelectNodes(nodes, spec.nodeSelector), TypedFilter(spec.nodeFilter))
  }

  function ListTasks(tasks: seq<TaskState>, selector: Labels): seq<TaskState>
  {
    if tasks == [] then []
    else ListTasks(tasks[..|tasks| - 1], selector)
         + (if MatchesLabels(selector, tasks[|tasks| - 1].labels) then [tasks[|tasks| - 1]] else [])
  }

  /** Both lists that a group reconcile asks for can be asked for. */
  predicate Listable(spec: GroupSpec)
  {
    IsSelector(spec.nodeSelector) && SelectorMap(spec.selector).Some?
  }

  /** The tasks that a group takes for its own. */
  function TasksOf(tasks: seq<TaskState>, spec: GroupSpec): seq<TaskState>
  {
    match SelectorMap(spec.selector)
    case Some(wanted) => ListTasks(tasks, wanted)
    case None => []
  }

  function TaskName(group: string, node: string): string { group + "-" + node }

  function NewTask(spec: GroupSpec, node: string, mode: Mode): TaskState
  {
    TaskState(TaskName(spec.name, node), spec.name, spec.labels, node, "", spec.commands,
              false, 0, mode == Controlled, false, None, PhasePending)
  }

  /** The new status, and the node to create a task for. */
  function GroupNormal(w: Views<TaskItem>, g: GroupState): (GroupState, Option<string>)
  {
    if w.Active() == 0 && |w.invalid| > 0 then (g.(error := Some(ReconciliationError)), None)
    else if w.Active() == 0 && |w.failed| > 0 then (g.(error := Some(ReplicaError)), None)
    else
      var g1 := if w.Active() > 0 then g.(error := None) else g;
      if !g1.started then (g1.(started := true), None)
      else if |w.completed| == |w.all| then (CompleteGroup(g1), None)
      else if g1.paused then (g1, None)
      else if |w.tobeCreated| > 0 && w.Active() == 0 then (g1, Some(w.tobeCreated[0].name))
      else (g1, None)
  }

  /** Which kinds of calls to the API server fail within a reconcile. */
  datatype Fault = Fault(daemonSet: bool, list: bool, create: bool, patch: bool)

  const NO_FAULT := Fault(false, false, false, false)

  function GroupStep(operation: OperationState, g: GroupState, w: Views<TaskItem>): (GroupState, Option<string>)
  {
    GroupNormal(w, g.(paused := operation.paused, counters := w.Counters()))
  }

  // ---- the operation controller ----

  function OperationNormal(w: Views<GroupItem>, o: OperationState): (OperationState, Option<GroupSpec>)
  {
    if w.Active() == 0 && |w.invalid| > 0 then (o.(error := Some(ReconciliationError)), None)
    else if w.Active() == 0 && |w.failed| > 0 then (o.(error := Some(ReplicaError)), None)
    else
      var o1 := if w.Active() > 0 then o.(error := None) else o;
      if !o1.started then (o1.(started := true), None)
      else
        var o2 := if |w.completed| == |w.all| then CompleteOperation(o1) else o1;
        if o2.paused then (o2, None)
        else if |w.tobeCreated| > 0 && w.Active() == 0 then (o2, w.tobeCreated[0].planned)
        else (o2, None)
  }

  predicate DaemonSetShouldBeRunning(o: OperationState)
  {
    !o.completed && o.error.None?
  }

  // ---- the whole system ----

  /** What is fixed for a run: the groups the operation plans, in planner order, and the nodes. */
  datatype Config = Config(desired: seq<GroupSpec>, nodes: seq<Node>)

  /** The stored objects, in creation order, and two histories: commands run and commands resolved. */
  datatype Cluster = Cluster(
    operation: OperationState, groups: seq<GroupState>, tasks: seq<TaskState>, daemonSet: bool,
    ran: seq<CommandRef>, resolved: seq<CommandRef>)

  /** A reconcile with the lists it read, which may be old, or a user move. */
  datatype Event =
    | ReconcileOperation(groups: seq<GroupState>, fault: Fault)
    | ReconcileGroup(name: string, operation: OperationState, tasks: seq<TaskState>, fault: Fault)
    | ReconcileTask(agent: string, name: string, operation: OperationState, ok: bool, fault: Fault)
    | SetPaused(paused: bool)
    | SetRecovery(name: string, mode: string)

  function FindGroup(groups: seq<GroupState>, name: string): (i: nat)
    ensures i <= |groups|
    ensures i < |groups| ==> groups[i].spec.name == name
    ensures forall j :: 0 <= j < i ==> groups[j].spec.name != name
  {
    if groups == [] then 0
    else if groups[0].spec.name == name then 0
    else 1 + FindGroup(groups[1..], name)
  }

  function FindTask(tasks: seq<TaskState>, name: string): (i: nat)
    ensures i <= |tasks|
    ensures i < |tasks| ==> tasks[i].name == name
    ensures forall j :: 0 <= j < i ==> tasks[j].name != name
  {
    if tasks == [] then 0
    else if tasks[0].name == name then 0
    else 1 + FindTask(tasks[1..], name)
  }

  function NewGroup(spec: GroupSpec): GroupState
  {
    GroupState(spec, false, false, false, Counters(0, 0, 0, 0, 0), None, PhasePending)
  }

  /** Create is refused when the API call fails or an object of that name exists. */
  predicate GroupRefused(c: Cluster, spec: GroupSpec, fault: Fault)
  {
    fault.create || FindGroup(c.groups, spec.name) < |c.groups|
  }

  predicate TaskRefused(c: Cluster, name: string, fault: Fault)
  {
    fault.create || FindTask(c.tasks, name) < |c.tasks|
  }

  function PatchOperation(c: Cluster, o: OperationState, fault: Fault): Cluster
  {
    if fault.patch then c else c.(operation := o)
  }

  function PatchGroup(c: Cluster, i: nat, g: GroupState, fault: Fault): Cluster
    requires i < |c.groups|
  {
    if fault.patch then c else c.(groups := c.groups[i := g])
  }

  function OperationReconciled(cfg: Config, c: Cluster, groups: seq<GroupState>, fault: Fault): Cluster
  {
    var o := c.operation;
    if o.completed then
      if fault.daemonSet then c else c.(daemonSet := false)
    else
      var o1 := o.(paused := o.specPaused);
      if fault.daemonSet then PatchOperation(c, o1, fault)
      else
        var c1 := c.(daemonSet := DaemonSetShouldBeRunning(o1));
        if fault.list then PatchOperation(c1, o1, fault)
        else OperationPlans(cfg, c1, o1, groups, fault)
  }

  /** The reconcile from the point where pause and daemon set are settled. */
  function OperationPlans(cfg: Config, c: Cluster, o: OperationState, groups: seq<GroupState>, fault: Fault): Cluster
  {
    var w := GroupViews(cfg.desired, groups);
    var (o1, create) := OperationNormal(w, o.(counters := w.Counters()));
    if create.None? then PatchOperation(c, PhasedOperation(o1), fault)
    else if GroupRefused(c, create.value, fault) then PatchOperation(c, o1, fault)
    else PatchOperation(c.(groups := c.groups + [NewGroup(create.value)]), PhasedOperation(o1), fault)
  }

  function GroupReconciled(
      cfg: Config, c: Cluster, i: nat, operation: OperationState, tasks: seq<TaskState>, fault: Fault): Cluster
    requires i < |c.groups|
  {
    var g := c.groups[i];
    if g.completed then c
    else if fault.list || !Listable(g.spec) then PatchGroup(c, i, g.(paused := operation.paused), fault)
    else
      var w := TaskViews(DesiredNodes(cfg.nodes, g.spec), TasksOf(tasks, g.spec));
      var (g1, create) := GroupStep(operation, g, w);
      GroupActs(c, i, g1, create, TypedMode(operation.mode), fault)
  }

  /** Create the next task if there is one to create, and write the status back. */
  function GroupActs(c: Cluster, i: nat, g: GroupState, create: Option<string>, mode: Mode, fault: Fault): Cluster
    requires i < |c.groups|
  {
    var spec := c.groups[i].spec;
    if create.None? then PatchGroup(c, i, PhasedGroup(g), fault)
    else if TaskRefused(c, TaskName(spec.name, create.value), fault) then PatchGroup(c, i, g, fault)
    else PatchGroup(c.(tasks := c.tasks + [NewTask(spec, create.value, mode)]), i, PhasedGroup(g), fault)
  }

  /** A lost patch loses the status, not the effect of the command. */
  function TaskReconciled(c: Cluster, i: nat, operation: OperationState, ok: bool, fault: Fault): Cluster
    requires i < |c.tasks|
  {
    var t := c.tasks[i];
    var c1 := c.(ran := c.ran + RanBy(operation, t));
    if fault.patch then c1
    else c1.(tasks := c.tasks[i := TaskStep(operation, t, ok)], resolved := c.resolved + ResolvedBy(operation, t, ok))
  }

  function Next(cfg: Config, c: Cluster, e: Event): Cluster
  {
    match e
    case ReconcileOperation(groups, fault) => OperationReconciled(cfg, c, groups, fault)
    case ReconcileGroup(name, operation, tasks, fault) =>
      var i := FindGroup(c.groups, name);
      if i == |c.groups| then c else GroupReconciled(cfg, c, i, operation, tasks, fault)
    case ReconcileTask(agent, name, operation, ok, fault) =>
      var i := FindTask(c.tasks, name);
      if i == |c.tasks| || c.tasks[i].node != agent then c else TaskReconciled(c, i, operation, ok, fault)
    case SetPaused(paused) => c.(operation := c.operation.(specPaused := paused))
    case SetRecovery(name, mode) =>
      var i := FindTask(c.tasks, name);
      if i == |c.tasks| then c else c.(tasks := c.tasks[i := c.tasks[i].(recovery := mode)])
  }

  // ---- runs ----

  predicate Initial(c: Cluster)
  {
    && c.groups == [] && c.tasks == [] && !c.daemonSet && c.ran == [] && c.resolved == []
    && !c.operation.started && !c.operation.paused && !c.operation.completed && c.operation.error.None?
  }

  /** Everything a reconcile reads from a list or from its owner was stored at some moment of the past. */
  ghost predicate Reads(past: seq<Cluster>, e: Event)
  {
    match e
    case ReconcileOperation(groups, _) => exists h <- past :: h.groups == groups
    case ReconcileGroup(_, operation, tasks, _) =>
      (exists h <- past :: h.operation == operation) && (exists h <- past :: h.tasks == tasks)
    case ReconcileTask(_, _, operation, _, _) => exists h <- past :: h.operation == operation
    case SetPaused(_) => true
    case SetRecovery(_, _) => true
  }

  /** Any interleaving of reconciles and user moves, with stale reads, failing commands and failing API calls. */
  ghost predicate IsRun(cfg: Config, states: seq<Cluster>, events: seq<Event>)
  {
    && |states| == |events| + 1
    && Initial(states[0])
    && forall i :: 0 <= i < |events| ==>
         Reads(states[..i + 1], events[i]) && states[i + 1] == Next(cfg, states[i], events[i])
  }
}
