/** Which commands a run hands to the agents: only ever the next one of the sequential program. */
module Execution {
  import opened Names
  import opened Api
  import opened Matching
  import opened Machine
  import opened Schedule
  import opened Safety
  import opened Guarantees

  // ---- the command under the cursor ----

  /** The current command of the last task is the one after all that have been left behind. */
  lemma {:induction false} CurrentIsNext(slots: seq<Slot>, tasks: seq<TaskState>)
    requires TasksInOrder(slots, tasks) && tasks != []
    requires !tasks[|tasks| - 1].completed && InRange(tasks[|tasks| - 1])
    ensures |History(tasks)| < |Program(slots)| && Program(slots)[|History(tasks)|] == Current(tasks[|tasks| - 1])
  {
    hide TaskName, TaskOk;
    var n := |tasks| - 1;
    var t, upto := tasks[n], slots[..n + 1];
    assert Fits(t, slots[n]);
    assert LastDone(tasks[..n]);
    HistoryFollows(slots[..n], tasks[..n]);
    assert upto[..n] == slots[..n];
    ProgramPrefix(upto, slots);
    assert Program(upto) == Program(slots[..n]) + Commands(t.group, t.node, |t.commands|);
    assert History(tasks) == Program(slots[..n]) + Commands(t.group, t.node, t.cursor - 1);
    assert Program(slots)[|History(tasks)|] == Program(upto)[|History(tasks)|];
  }

  /** A task that runs a command is the last task, and the command is the next of the program. */
  lemma RunByNext(cfg: Config, c: Cluster, i: nat, operation: OperationState)
    requires Inv(cfg, c) && c.resolved == History(c.tasks) && i < |c.tasks| && RanBy(operation, c.tasks[i]) != []
    ensures |c.resolved| < |Program(AllSlots(cfg))|
    ensures RanBy(operation, c.tasks[i]) == [Program(AllSlots(cfg))[|c.resolved|]]
  {
    hide Planned, InvOf, Slots, Program, History, TypedMode, TypedRecovery;
    LastSpec(cfg, c);
    OnlyLastCanBeIncomplete(cfg, c);
    assert i == |c.tasks| - 1;
    StoredInOrder(cfg, c);
    CurrentIsNext(Slots(cfg, |c.groups|), c.tasks);
    SlotsPrefix(cfg, |c.groups|, |Planned(cfg)|);
    ProgramPrefix(Slots(cfg, |c.groups|), AllSlots(cfg));
  }

  lemma {:induction false} StoredInOrder(cfg: Config, c: Cluster)
    requires Inv(cfg, c)
    ensures |c.groups| <= |Planned(cfg)| && TasksInOrder(Slots(cfg, |c.groups|), c.tasks)
  {
    hide Planned, Slots, LastGroup, TasksInOrder;
  }

  /** Nothing is run in this step, or the next command of the program is. */
  ghost predicate RunsNext(cfg: Config, a: Cluster, b: Cluster)
  {
    || b.ran == a.ran
    || (|a.resolved| < |Program(AllSlots(cfg))| && b.ran == a.ran + [Program(AllSlots(cfg))[|a.resolved|]])
  }

  lemma StepRunsNext(cfg: Config, c: Cluster, e: Event)
    requires Inv(cfg, c) && c.resolved == History(c.tasks)
    ensures RunsNext(cfg, c, Next(cfg, c, e))
  {
    hide Planned, InvOf, OperationReconciled, GroupReconciled, TaskStep, RanBy, ResolvedBy, History, Program, AllSlots,
         FindTask, FindGroup;
    match e
    case ReconcileOperation(groups, fault) => OperationFrame(cfg, c, groups, fault);
    case ReconcileGroup(name, operation, tasks, fault) =>
      var i := FindGroup(c.groups, name);
      if i < |c.groups| { GroupFrame(cfg, c, i, operation, tasks, fault); }
    case ReconcileTask(agent, name, operation, ok, fault) =>
      var i := FindTask(c.tasks, name);
      if i < |c.tasks| && RanBy(operation, c.tasks[i]) != [] { RunByNext(cfg, c, i, operation); }
    case SetPaused(_) =>
    case SetRecovery(_, _) =>
  }

  /** In every step of every run, the only command that can be handed to an agent is the next one of the program. */
  lemma RunRunsNext(cfg: Config, states: seq<Cluster>, events: seq<Event>, i: nat)
    requires ProperRun(cfg, states, events) && i < |events|
    ensures RunsNext(cfg, states[i], states[i + 1])
  {
    hide Planned, Inv, Next, SelectorsSingle, Evolves, Reads, ReadsInTime, RunsNext, History;
    RunKeeps(cfg, states, events);
    RunHistory(cfg, states, events);
    StepRunsNext(cfg, states[i], events[i]);
  }

  // ---- attempts over a whole run ----

  /** The commands run are those at these places of the program, which never go back. */
  ghost predicate InProgramOrder(ran: seq<CommandRef>, program: seq<CommandRef>, at: seq<nat>)
  {
    && |at| == |ran|
    && (forall k :: 0 <= k < |ran| ==> at[k] < |program| && ran[k] == program[at[k]])
    && (forall a, b :: 0 <= a < b < |at| ==> at[a] <= at[b])
  }

  lemma ResolvedGrows(cfg: Config, c: Cluster, e: Event)
    ensures |c.resolved| <= |Next(cfg, c, e).resolved|
  {
    hide OperationReconciled, GroupReconciled, TaskStep, RanBy, ResolvedBy, FindTask, FindGroup;
    match e
    case ReconcileOperation(groups, fault) => OperationFrame(cfg, c, groups, fault);
    case ReconcileGroup(name, operation, tasks, fault) =>
      var i := FindGroup(c.groups, name);
      if i < |c.groups| { GroupFrame(cfg, c, i, operation, tasks, fault); }
    case ReconcileTask(_, _, _, _, _) =>
    case SetPaused(_) =>
    case SetRecovery(_, _) =>
  }

  /**
   * A run attempts the commands in program order: again after a failure, a retry or a lost status, but never an
   * earlier one.
   */
  lemma {:induction false} RunNeverGoesBack(cfg: Config, states: seq<Cluster>, events: seq<Event>)
    returns (at: seq<nat>)
    requires ProperRun(cfg, states, events)
    ensures InProgramOrder(states[|events|].ran, Program(AllSlots(cfg)), at)
    ensures forall k :: 0 <= k < |at| ==> at[k] <= |states[|events|].resolved|
  {
    hide Planned, AllSlots, Program, Next, SelectorsSingle, Reads, ReadsInTime;
    if events == [] {
      at := [];
    } else {
      var n := |events| - 1;
      RunPrefix(cfg, states, events);
      at := RunNeverGoesBack(cfg, states[..n + 1], events[..n]);
      RunRunsNext(cfg, states, events, n);
      ResolvedGrows(cfg, states[n], events[n]);
      if states[n + 1].ran != states[n].ran { at := at + [|states[n].resolved|]; }
    }
  }

  // ---- the cursor of each task ----

  /** The entries of a history that belong to one task. */
  function Of(refs: seq<CommandRef>, group: string, node: string): seq<CommandRef>
  {
    if refs == [] then []
    else
      var r := refs[|refs| - 1];
      Of(refs[..|refs| - 1], group, node) + (if r.group == group && r.node == node then [r] else [])
  }

  lemma {:induction false} OfConcat(a: seq<CommandRef>, b: seq<CommandRef>, group: string, node: string)
    ensures Of(a + b, group, node) == Of(a, group, node) + Of(b, group, node)
  {
    if b == [] {
      assert a + b == a;
    } else {
      assert (a + b)[..|a + b| - 1] == a + b[..|b| - 1];
      OfConcat(a, b[..|b| - 1], group, node);
    }
  }

  lemma {:induction false} OfCommands(g: string, n: string, r: nat, group: string, node: string)
    ensures Of(Commands(g, n, r), group, node) == if g == group && n == node then Commands(g, n, r) else []
  {
    hide Commands;
    LastCommand(g, n, r);
    if r > 0 {
      OfCommands(g, n, r - 1, group, node);
      assert Commands(g, n, r)[..r - 1] == Commands(g, n, r - 1);
    }
  }

  lemma LastCommand(g: string, n: string, r: nat)
    ensures |Commands(g, n, r)| == r
    ensures r > 0 ==> Commands(g, n, r) == Commands(g, n, r - 1) + [CommandRef(g, n, r)]
  {
  }

  lemma {:induction false} OfHistory(slots: seq<Slot>, tasks: seq<TaskState>, group: string, node: string)
    requires TasksInOrder(slots, tasks)
    ensures (forall j :: 0 <= j < |tasks| ==> tasks[j].group != group || tasks[j].node != node) ==>
        Of(History(tasks), group, node) == []
    ensures forall j :: 0 <= j < |tasks| && tasks[j].group == group && tasks[j].node == node ==>
              Of(History(tasks), group, node) == Commands(group, node, ResolvedCount(tasks[j]))
  {
    hide TaskOk, ResolvedCount, Commands, Of, History, TasksInOrder;
    if tasks == [] {
      assert History(tasks) == [] && Of([], group, node) == [] by { NoHistory(); NoneOf(group, node); }
    } else {
      var n := |tasks| - 1;
      var t := tasks[n];
      DistinctPairs(slots, tasks);
      OfHistory(slots, tasks[..n], group, node);
      LastOfHistory(tasks);
      OfConcat(History(tasks[..n]), Commands(t.group, t.node, ResolvedCount(t)), group, node);
      OfCommands(t.group, t.node, ResolvedCount(t), group, node);
    }
  }

  lemma {:induction false} NoneOf(group: string, node: string)
    ensures Of([], group, node) == []
  {
  }

  lemma {:induction false} LastOfHistory(tasks: seq<TaskState>)
    requires tasks != []
    ensures var t := tasks[|tasks| - 1];
            History(tasks) == History(tasks[..|tasks| - 1]) + Commands(t.group, t.node, ResolvedCount(t))
  {
  }

  /** Tasks in order differ in group or node. */
  lemma DistinctPairs(slots: seq<Slot>, tasks: seq<TaskState>)
    requires TasksInOrder(slots, tasks)
    ensures forall i, j :: 0 <= i < j < |tasks| ==> tasks[i].group != tasks[j].group || tasks[i].node != tasks[j].node
    ensures tasks != [] ==> TasksInOrder(slots, tasks[..|tasks| - 1])
  {
    hide TaskOk, TaskName;
    forall i, j | 0 <= i < j < |tasks| ensures tasks[i].group != tasks[j].group || tasks[i].node != tasks[j].node {
      assert Fits(tasks[i], slots[i]) && Fits(tasks[j], slots[j]);
    }
  }

  /**
   * Cursor conservation: what a task has left behind is exactly its commands before the cursor, each once and in
   * order; so the cursor of a started task is one more than their number, and a completed task has left all its
   * commands behind.
   */
  lemma RunCursorCounts(cfg: Config, states: seq<Cluster>, events: seq<Event>, i: nat, j: nat)
    requires ProperRun(cfg, states, events) && i <= |events| && j < |states[i].tasks|
    ensures var t := states[i].tasks[j];
            var mine := Of(states[i].resolved, t.group, t.node);
            && mine == Commands(t.group, t.node, |mine|)
            && (!t.started ==> mine == [])
            && (t.started && !t.completed ==> t.cursor == 1 + |mine|)
            && (t.completed ==> |mine| == |t.commands|)
  {
    hide Planned, Inv, Next, SelectorsSingle, Evolves, Reads, ReadsInTime, History, Of, Slots;
    RunKeeps(cfg, states, events);
    RunHistory(cfg, states, events);
    var c := states[i];
    StoredTaskOk(cfg, c, j);
    StoredInOrder(cfg, c);
    OfHistory(Slots(cfg, |c.groups|), c.tasks, c.tasks[j].group, c.tasks[j].node);
  }
}
