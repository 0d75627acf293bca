/** Runs that show what the code lets happen: how any run that has come to a certain point can go on. */
module Reach {
  import opened Names
  import opened Api
  import opened Matching
  import opened Machine
  import opened Schedule
  import opened Safety
  import opened Guarantees
  import opened Execution
  import opened Modes
  import opened Progress
  import opened Liveness
  import opened Workflows
  import opened Fairness

  // ---- going on with a run ----

  lemma GoOnRun(cfg: Config, states: seq<Cluster>, events: seq<Event>, e: Event)
    requires IsRun(cfg, states, events) && Reads(states, e)
    ensures IsRun(cfg, states + [Next(cfg, Last(states), e)], events + [e])
  {
    hide Next, Reads, Initial;
    var s, v := states + [Next(cfg, Last(states), e)], events + [e];
    forall i | 0 <= i < |v| ensures Reads(s[..i + 1], v[i]) && s[i + 1] == Next(cfg, s[i], v[i]) {
      assert s[..i + 1] == states[..i + 1];
      if i == |events| { assert states[..i + 1] == states; }
    }
  }

  lemma GoOn(cfg: Config, states: seq<Cluster>, events: seq<Event>, e: Event)
    requires ProperRun(cfg, states, events) && Reads(states, e) && ReadsInTime(cfg, states, Last(states), e)
    ensures ProperRun(cfg, states + [Next(cfg, Last(states), e)], events + [e])
    ensures Last(states + [Next(cfg, Last(states), e)]) == Next(cfg, Last(states), e)
  {
    hide Next, IsRun, ReadsInTime, SelectorsSingle, Planned;
    RunLength(cfg, states, events);
    GoOnRun(cfg, states, events, e);
    var s, v := states + [Next(cfg, Last(states), e)], events + [e];
    forall i | 0 <= i < |v| ensures ReadsInTime(cfg, s[..i + 1], s[i], v[i]) {
      assert s[..i + 1] == states[..i + 1];
      if i == |events| { assert states[..i + 1] == states; }
    }
  }

  /** Only the list of tasks can be read too early. */
  lemma AnyTime(cfg: Config, states: seq<Cluster>, e: Event)
    requires states != [] && Reads(states, e) && !e.ReconcileGroup?
    ensures ReadsInTime(cfg, states, Last(states), e)
  {
    var m := ListRead(states, e);
    assert Timely(cfg, Last(states), states[m], e);
  }

  lemma GoOnAnyTime(cfg: Config, states: seq<Cluster>, events: seq<Event>, e: Event)
    requires ProperRun(cfg, states, events) && Reads(states, e) && !e.ReconcileGroup?
    ensures ProperRun(cfg, states + [Next(cfg, Last(states), e)], events + [e])
    ensures Last(states + [Next(cfg, Last(states), e)]) == Next(cfg, Last(states), e)
  {
    hide Next, Reads, ReadsInTime, Initial, SelectorsSingle, Planned;
    AnyTime(cfg, states, e);
    GoOn(cfg, states, events, e);
  }

  // ---- undisturbed moves are runs ----

  /** A move with everything it reads current is a step that any run can take. */
  lemma MoveGoesOn(cfg: Config, states: seq<Cluster>, events: seq<Event>, m: Move)
    requires ProperRun(cfg, states, events)
    ensures ProperRun(cfg, states + [Moved(cfg, Last(states), m)], events + [Fresh(Last(states), m)])
  {
    hide Next, Inv, ReadsInTime, Initial, SelectorsSingle, Planned, Evolves;
    RunKeeps(cfg, states, events);
    var e := Fresh(Last(states), m);
    assert Last(states) in states;
    FreshIsTimely(cfg, Last(states), e);
    InTimeNow(cfg, states, e);
    GoOn(cfg, states, events, e);
  }

  lemma InTimeNow(cfg: Config, states: seq<Cluster>, e: Event)
    requires states != [] && ReadsListOf(Last(states), e) && Timely(cfg, Last(states), Last(states), e)
    ensures ReadsInTime(cfg, states, Last(states), e)
  {
    hide ReadsListOf, Timely;
    assert Last(states) in states;
  }

  /** Every run can go on with any moves there are. */
  lemma {:induction false} MovesGoOn(cfg: Config, states: seq<Cluster>, events: seq<Event>, moves: seq<Move>)
    returns (on: seq<Cluster>, onEvents: seq<Event>)
    requires ProperRun(cfg, states, events)
    ensures ProperRun(cfg, states + on, events + onEvents)
    ensures Last(states + on) == After(cfg, Last(states), moves)
  {
    hide ProperRun, Moved;
    RunIsNotEmpty(cfg, states, events);
    on, onEvents := [], [];
    assert states + [] == states && events + [] == events;
    if moves != [] {
      var m := moves[|moves| - 1];
      on, onEvents := MovesGoOn(cfg, states, events, moves[..|moves| - 1]);
      var d := Last(states + on);
      MoveGoesOn(cfg, states + on, events + onEvents, m);
      assert states + on + [Moved(cfg, d, m)] == states + (on + [Moved(cfg, d, m)]);
      assert events + onEvents + [Fresh(d, m)] == events + (onEvents + [Fresh(d, m)]);
      on, onEvents := on + [Moved(cfg, d, m)], onEvents + [Fresh(d, m)];
    }
  }

  lemma RunIsNotEmpty(cfg: Config, states: seq<Cluster>, events: seq<Event>)
    requires ProperRun(cfg, states, events)
    ensures |states| == |events| + 1
  {
    hide Planned, Next, SelectorsSingle, Reads, ReadsInTime;
  }

  /** What moves can bring about, some run brings about. */
  lemma RunThere(cfg: Config, c: Cluster, moves: seq<Move>) returns (states: seq<Cluster>, events: seq<Event>)
    requires SelectorsSingle(cfg) && Initial(c)
    ensures ProperRun(cfg, states, events) && states[0] == c && Last(states) == After(cfg, c, moves)
  {
    hide Next, SelectorsSingle, Initial, After, Reads, ReadsInTime;
    assert ProperRun(cfg, [c], []);
    var on, onEvents := MovesGoOn(cfg, [c], [], moves);
    states, events := [c] + on, [] + onEvents;
  }

  /** The moves of a schedule that take place, those of agents that are not there being left out. */
  lemma {:induction false} PlayedMoves(cfg: Config, c: Cluster, round: seq<Move>) returns (moves: seq<Move>)
    ensures Play(cfg, c, round) == After(cfg, c, moves) && AllPossible(cfg, c, moves)
    decreases |round|
  {
    hide Moved, Possible, AllPossible, After;
    AfterNone(cfg, c);
    moves := [];
    if round != [] {
      var m := round[0];
      var rest := PlayedMoves(cfg, Scheduled(cfg, c, m), round[1..]);
      moves := rest;
      if Possible(c, m) {
        AfterOne(cfg, c, [], m);
        assert [] + [m] == [m];
        AfterConcat(cfg, c, [m], rest);
        moves := [m] + rest;
      }
    }
  }

  lemma {:induction false} PlayedRounds(cfg: Config, c: Cluster, rounds: seq<seq<Move>>) returns (moves: seq<Move>)
    ensures PlayRounds(cfg, c, rounds) == After(cfg, c, moves) && AllPossible(cfg, c, moves)
    decreases |rounds|
  {
    hide Moved, Possible, AllPossible, After, Play;
    AfterNone(cfg, c);
    moves := [];
    if rounds != [] {
      var first := PlayedMoves(cfg, c, rounds[0]);
      var rest := PlayedRounds(cfg, Play(cfg, c, rounds[0]), rounds[1..]);
      AfterConcat(cfg, c, first, rest);
      moves := first + rest;
    }
  }

  /**
   * However a run has gone so far, with stale reads, failed calls and failed commands: once it is in a healthy state,
   * it can go on with any fair rounds there are, and enough of them complete the operation.
   */
  lemma RunsCanBeCompleted(cfg: Config, states: seq<Cluster>, events: seq<Event>, rounds: seq<seq<Move>>)
    returns (on: seq<Cluster>, onEvents: seq<Event>)
    requires ProperRun(cfg, states, events) && Healthy(cfg, Last(states))
    requires |rounds| >= 5 * Total(cfg) && forall round <- rounds :: Fair(cfg, round)
    ensures ProperRun(cfg, states + on, events + onEvents)
    ensures Last(states + on) == PlayRounds(cfg, Last(states), rounds) && Last(states + on).operation.completed
  {
    hide ProperRun, Planned, InvOf, PlayRounds, After, AllPossible, Fair, Total, Rank, SelectorsSingle, Healthy;
    RunSelectors(cfg, states, events);
    var moves := PlayedRounds(cfg, Last(states), rounds);
    on, onEvents := MovesGoOn(cfg, states, events, moves);
    FairSchedulesComplete(cfg, Last(states), rounds);
  }

  lemma RunSelectors(cfg: Config, states: seq<Cluster>, events: seq<Event>)
    requires ProperRun(cfg, states, events)
    ensures SelectorsSingle(cfg) && |states| == |events| + 1 && Inv(cfg, Last(states))
  {
    hide Planned, Next, SelectorsSingle, Reads, ReadsInTime, Inv, Evolves;
    RunKeeps(cfg, states, events);
  }

  /** The reconcile of the last task with the operation as it was in `h`. */
  function LastTaskEvent(c: Cluster, operation: OperationState, ok: bool): Event
    requires c.tasks != []
  {
    var t := c.tasks[|c.tasks| - 1];
    ReconcileTask(t.node, t.name, operation, ok, NO_FAULT)
  }

  /** The last task is under way: it has a command to run, no recovery chosen and, before it runs into one, no error. */
  predicate UnderWay(c: Cluster)
  {
    c.tasks != [] &&
      var t := c.tasks[|c.tasks| - 1];
      t.started && !t.completed && t.commands != [] && t.error.None? && TypedRecovery(t.recovery) == UnknownStrategy
  }

  lemma LastTaskStep(cfg: Config, c: Cluster, operation: OperationState, ok: bool)
    requires Inv(cfg, c) && c.tasks != []
    ensures Next(cfg, c, LastTaskEvent(c, operation, ok)) == TaskReconciled(c, |c.tasks| - 1, operation, ok, NO_FAULT)
  {
    hide InvOf, FindTask, TaskReconciled;
    LastTaskFound(cfg, c);
  }

  /** What one reconcile makes of the last task, under an operation that lets it run. */
  lemma LastTaskRun(cfg: Config, c: Cluster, operation: OperationState, ok: bool)
    requires Inv(cfg, c) && c.tasks != [] && !operation.paused && TypedMode(operation.mode) != DryRun
    requires var t := c.tasks[|c.tasks| - 1];
             t.started && !t.completed && t.commands != [] && TypedRecovery(t.recovery) == UnknownStrategy
    ensures var n, d := |c.tasks| - 1, Next(cfg, c, LastTaskEvent(c, operation, ok));
            var t := c.tasks[n];
            && d.operation == c.operation && d.groups == c.groups && |d.tasks| == n + 1 && SameTask(t, d.tasks[n])
            && d.ran == c.ran + [Current(t)] && d.resolved == (if ok then c.resolved + [Current(t)] else c.resolved)
            && d.tasks[n].started && d.tasks[n].recovery == t.recovery
            && (!ok ==>
                  d.tasks[n].error == Some(ExecutionError(t.cursor)) && !d.tasks[n].completed
                  && d.tasks[n].cursor == t.cursor)
            && (ok && t.cursor < |t.commands| ==>
                  d.tasks[n].error == t.error && !d.tasks[n].completed && d.tasks[n].cursor == t.cursor + 1)
  {
    hide InvOf, FindTask, TypedMode, TypedRecovery, TaskStep, RanBy, ResolvedBy, SameTask;
    var t := c.tasks[|c.tasks| - 1];
    LastTaskStep(cfg, c, operation, ok);
    StoredTaskOk(cfg, c, |c.tasks| - 1);
    TaskStepKeepsTask(operation, t, ok);
    TaskRun(operation, t, ok);
  }

  lemma TaskRun(operation: OperationState, t: TaskState, ok: bool)
    requires TaskOk(t) && !operation.paused && TypedMode(operation.mode) != DryRun
    requires t.started && !t.completed && t.commands != [] && TypedRecovery(t.recovery) == UnknownStrategy
    ensures var u := TaskStep(operation, t, ok);
            && RanBy(operation, t) == [Current(t)] && ResolvedBy(operation, t, ok) == (if ok then [Current(t)] else [])
            && u.started && u.recovery == t.recovery
            && (!ok ==> u.error == Some(ExecutionError(t.cursor)) && !u.completed && u.cursor == t.cursor)
            && (ok && t.cursor < |t.commands| ==> u.error == t.error && !u.completed && u.cursor == t.cursor + 1)
  {
    hide TypedMode, TypedRecovery;
  }

  // ---- a failed task is run again ----

  /**
   * Any run in which the last task is under way, not paused and not in dry run, can go on so that the task fails and,
   * without a recovery being chosen, runs the same command again.
   */
  lemma FailedTaskIsRunAgain(cfg: Config, states: seq<Cluster>, events: seq<Event>, ok: bool)
    requires ProperRun(cfg, states, events) && UnderWay(Last(states))
    requires !Last(states).operation.paused && TypedMode(Last(states).operation.mode) != DryRun
    ensures var c := Last(states);
            var t, n := c.tasks[|c.tasks| - 1], |c.tasks| - 1;
            var fails, again := LastTaskEvent(c, c.operation, false), LastTaskEvent(c, c.operation, ok);
            var c1 := Next(cfg, c, fails);
            var c2 := Next(cfg, c1, again);
            && ProperRun(cfg, states + [c1, c2], events + [fails, again])
            && n < |c1.tasks| && IsFailed(c1.tasks[n])
            && c2.ran == c.ran + [Current(t), Current(t)]
            && (ok && t.cursor < |t.commands| ==> PastItsError(c, c2))
  {
    hide Inv, Next, Reads, ReadsInTime, SelectorsSingle, Evolves, TypedMode, TypedRecovery;
    RunKeeps(cfg, states, events);
    var c := Last(states);
    var e := LastTaskEvent(c, c.operation, false);
    LastTaskRun(cfg, c, c.operation, false);
    ReadsNow(states, e);
    GoOnAnyTime(cfg, states, events, e);
    var c1 := Next(cfg, c, e);
    var z := LastTaskEvent(c, c.operation, ok);
    RunKeeps(cfg, states + [c1], events + [e]);
    LastTaskRun(cfg, c1, c.operation, ok);
    ReadsNow(states + [c1], z);
    GoOnAnyTime(cfg, states + [c1], events + [e], z);
    assert states + [c1] + [Next(cfg, c1, z)] == states + [c1, Next(cfg, c1, z)]
        && events + [e] + [z] == events + [e, z];
  }

  /** One command on from `c`, and still with the error of the one before. */
  predicate PastItsError(c: Cluster, d: Cluster)
    requires c.tasks != []
  {
    var n, t := |c.tasks| - 1, c.tasks[|c.tasks| - 1];
    && d.operation == c.operation && |d.tasks| == n + 1 && SameTask(t, d.tasks[n])
        && d.resolved == c.resolved + [Current(t)] && TypedRecovery(d.tasks[n].recovery) == UnknownStrategy
    && d.tasks[n].started && !d.tasks[n].completed && d.tasks[n].error == Some(ExecutionError(t.cursor))
    && d.tasks[n].cursor == t.cursor + 1 && t.cursor < |t.commands|
  }

  lemma ReadsNow(states: seq<Cluster>, e: Event)
    requires states != [] && e.ReconcileTask? && e.operation == Last(states).operation
    ensures Reads(states, e)
  {
    assert Last(states) in states;
  }

  // ---- a noted pause is missed by a reconcile that read an older operation ----

  /**
   * Any run in which the last task is under way, not paused and not in dry run, can go on so that the user pauses the
   * operation, the operation controller takes note, and the agent, which read the operation before, runs a command all
   * the same.
   */
  lemma PauseIsMissed(cfg: Config, states: seq<Cluster>, events: seq<Event>, ok: bool)
    requires ProperRun(cfg, states, events) && UnderWay(Last(states))
    requires !Last(states).operation.paused && TypedMode(Last(states).operation.mode) != DryRun
    ensures var c := Last(states);
            var pause, late := SetPaused(true), LastTaskEvent(c, c.operation, ok);
            var c1 := Next(cfg, c, pause);
            var note := ReconcileOperation(c1.groups, NO_FAULT);
            var c2 := Next(cfg, c1, note);
            var c3 := Next(cfg, c2, late);
            && ProperRun(cfg, states + [c1, c2, c3], events + [pause, note, late])
            && Frozen(c2) && Frozen(c3) && c2.ran == c.ran
            && c3.ran == c.ran + [Current(c.tasks[|c.tasks| - 1])]
  {
    hide Inv, Next, Reads, ReadsInTime, SelectorsSingle, Evolves, TypedMode, TypedRecovery, OperationReconciled;
    RunKeeps(cfg, states, events);
    var c := Last(states);
    var pause, late := SetPaused(true), LastTaskEvent(c, c.operation, ok);
    GoOnPaused(cfg, states, events);
    var c1 := Next(cfg, c, pause);
    var s1, v1 := states + [c1], events + [pause];
    RunKeeps(cfg, s1, v1);
    var note := ReconcileOperation(c1.groups, NO_FAULT);
    ReadsGroupsNow(s1, note);
    GoOnAnyTime(cfg, s1, v1, note);
    OnlyLastCanBeIncomplete(cfg, c1);
    PauseIsNoted(cfg, c1);
    var c2 := Next(cfg, c1, note);
    var s2, v2 := s1 + [c2], v1 + [note];
    RunKeeps(cfg, s2, v2);
    LastTaskRun(cfg, c2, c.operation, ok);
    ReadsThen(s2, late, |states| - 1);
    GoOnAnyTime(cfg, s2, v2, late);
    assert s2 + [Next(cfg, c2, late)] == states + [c1, c2, Next(cfg, c2, late)]
        && v2 + [late] == events + [pause, note, late];
  }

  lemma GoOnPaused(cfg: Config, states: seq<Cluster>, events: seq<Event>)
    requires ProperRun(cfg, states, events)
    ensures var c := Last(states);
            var d := c.(operation := c.operation.(specPaused := true));
            Next(cfg, c, SetPaused(true)) == d && ProperRun(cfg, states + [d], events + [SetPaused(true)])
  {
    hide Planned, Initial, SelectorsSingle, ReadsInTime;
    GoOnAnyTime(cfg, states, events, SetPaused(true));
  }

  lemma PauseIsNoted(cfg: Config, c: Cluster)
    requires SelectorsSingle(cfg) && Inv(cfg, c) && c.operation.specPaused && !LastGroupDone(c)
    ensures var d := Next(cfg, c, ReconcileOperation(c.groups, NO_FAULT));
            Frozen(d) && d.tasks == c.tasks && d.ran == c.ran && d.groups == c.groups
  {
    hide Inv, SelectorsSingle, OperationReconciled;
    OperationWaits(cfg, c);
    OperationFrame(cfg, c, c.groups, NO_FAULT);
  }

  lemma ReadsGroupsNow(states: seq<Cluster>, e: Event)
    requires states != [] && e.ReconcileOperation? && e.groups == Last(states).groups
    ensures Reads(states, e)
  {
    assert Last(states) in states;
  }

  lemma ReadsThen(states: seq<Cluster>, e: Event, i: nat)
    requires i < |states| && e.ReconcileTask? && e.operation == states[i].operation
    ensures Reads(states, e)
  {
    assert states[i] in states;
  }

  // ---- skipped commands that were never run ----

  lemma {:induction false} ProgramAt(slots: seq<Slot>, k: nat) returns (a: nat)
    requires k < |Program(slots)|
    ensures a < |slots| && |Program(slots[..a])| <= k
    ensures Program(slots)[k] == CommandRef(slots[a].spec.name, slots[a].node, k - |Program(slots[..a])| + 1)
  {
    var n := |slots| - 1;
    if k < |Program(slots[..n])| {
      a := ProgramAt(slots[..n], k);
      assert slots[..n][..a] == slots[..a];
    } else {
      a := n;
    }
  }

  /** No command is twice in the program. */
  lemma ProgramDistinct(cfg: Config, k: nat, l: nat)
    requires k < |Program(AllSlots(cfg))| && l < |Program(AllSlots(cfg))|
        && Program(AllSlots(cfg))[k] == Program(AllSlots(cfg))[l]
    ensures k == l
  {
    hide Program, AllSlots;
    var a := ProgramAt(AllSlots(cfg), k);
    var b := ProgramAt(AllSlots(cfg), l);
    SlotsDistinct(cfg, a, b);
  }

  lemma SlotsDistinct(cfg: Config, a: nat, b: nat)
    requires a < |AllSlots(cfg)| && b < |AllSlots(cfg)|
    requires AllSlots(cfg)[a].spec.name == AllSlots(cfg)[b].spec.name && AllSlots(cfg)[a].node == AllSlots(cfg)[b].node
    ensures a == b
  {
    hide Planned, Made, AllSlots, TaskName;
    var i, n := SlotAnyGroup(cfg, a);
    var j, m := SlotAnyGroup(cfg, b);
    AscendingDistinct(SpecNames(Planned(cfg)), i, j);
    if a < b { SameSlotAt(cfg, i, a, b); }
    if b < a { SameSlotAt(cfg, i, b, a); }
  }

  lemma SameSlotAt(cfg: Config, i: nat, a: nat, b: nat)
    requires i < |Planned(cfg)| && |Slots(cfg, i)| <= a < b < |Slots(cfg, i + 1)| && b < |AllSlots(cfg)|
    ensures AllSlots(cfg)[a].spec.name != AllSlots(cfg)[b].spec.name || AllSlots(cfg)[a].node != AllSlots(cfg)[b].node
  {
    hide Planned, Made, AllSlots, Slots;
    SameSlot(cfg, i, a, b);
  }

  /** The current command of an incomplete task is the next of the program. */
  lemma RunCurrent(cfg: Config, states: seq<Cluster>, events: seq<Event>)
    requires ProperRun(cfg, states, events) && Last(states).tasks != []
    requires var t := Last(states).tasks[|Last(states).tasks| - 1]; !t.completed && InRange(t)
    ensures var c := Last(states);
            var program := Program(AllSlots(cfg));
            |c.resolved| < |program| && program[|c.resolved|] == Current(c.tasks[|c.tasks| - 1])
  {
    hide Planned, Slots, Program, History, Next, Reads, ReadsInTime, SelectorsSingle, TasksInOrder, GroupsInOrder,
         Evolves;
    RunKeeps(cfg, states, events);
    RunHistory(cfg, states, events);
    var c := Last(states);
    StoredInOrder(cfg, c);
    CurrentIsNext(Slots(cfg, |c.groups|), c.tasks);
    SlotsPrefix(cfg, |c.groups|, |Planned(cfg)|);
    ProgramPrefix(Slots(cfg, |c.groups|), AllSlots(cfg));
  }

  /** The current command has been attempted exactly if it is the one that was run last of all. */
  lemma RunAttempted(cfg: Config, states: seq<Cluster>, events: seq<Event>)
    requires ProperRun(cfg, states, events) && Last(states).tasks != []
    requires var t := Last(states).tasks[|Last(states).tasks| - 1]; !t.completed && InRange(t)
    ensures var c := Last(states);
            var now := Current(c.tasks[|c.tasks| - 1]);
            now in c.ran <==> c.ran != [] && c.ran[|c.ran| - 1] == now
  {
    hide Planned, Program, AllSlots, Next, Reads, ReadsInTime, SelectorsSingle, Initial;
    RunCurrent(cfg, states, events);
    var c := Last(states);
    var now := Current(c.tasks[|c.tasks| - 1]);
    var at := RunNeverGoesBack(cfg, states, events);
    if now in c.ran {
      var k :| 0 <= k < |c.ran| && c.ran[k] == now;
      ProgramDistinct(cfg, at[k], |c.resolved|);
      assert k < |c.ran| - 1 ==> at[k] <= at[|c.ran| - 1];
    }
  }

  // ---- what an error says about the attempt ----

  /** An error that names a command is of a task that has run it. */
  ghost predicate ErrorsTrue(c: Cluster)
  {
    forall j :: 0 <= j < |c.tasks| && c.tasks[j].error.Some? && c.tasks[j].error.value.ExecutionError? ==>
      CommandRef(c.tasks[j].group, c.tasks[j].node, c.tasks[j].error.value.command) in c.ran
  }

  lemma TaskErrorTrue(operation: OperationState, t: TaskState, ok: bool)
    requires TaskOk(t)
    ensures var u := TaskStep(operation, t, ok);
            u.error.Some? && u.error.value.ExecutionError? ==>
              u.error == t.error || (u.error.value.command == t.cursor && RanBy(operation, t) == [Current(t)])
  {
    hide TypedMode, TypedRecovery;
  }

  lemma StepErrorsTrue(cfg: Config, c: Cluster, e: Event)
    requires Inv(cfg, c) && ErrorsTrue(c)
    ensures ErrorsTrue(Next(cfg, c, e))
  {
    hide Inv, OperationReconciled, GroupReconciled, TaskStep, RanBy, ResolvedBy, FindTask, FindGroup;
    match e
    case ReconcileOperation(groups, fault) => OperationFrame(cfg, c, groups, fault);
    case ReconcileGroup(name, operation, tasks, fault) =>
      var i := FindGroup(c.groups, name);
      if i < |c.groups| { GroupFrame(cfg, c, i, operation, tasks, fault); }
    case ReconcileTask(agent, name, operation, ok, fault) =>
      var i := FindTask(c.tasks, name);
      if i < |c.tasks| {
        StoredTaskOk(cfg, c, i);
        TaskStepKeepsTask(operation, c.tasks[i], ok);
        TaskErrorTrue(operation, c.tasks[i], ok);
      }
    case SetPaused(_) =>
    case SetRecovery(_, _) =>
  }

  lemma {:induction false} RunErrorsTrue(cfg: Config, states: seq<Cluster>, events: seq<Event>)
    requires ProperRun(cfg, states, events)
    ensures ErrorsTrue(Last(states))
  {
    hide Planned, Next, Inv, Reads, ReadsInTime, SelectorsSingle, Evolves, ErrorsTrue;
    if events == [] {
      assert ErrorsTrue(states[0]) by { NoTasksNoErrors(states[0]); }
    } else {
      var n := |events| - 1;
      RunKeeps(cfg, states, events);
      RunPrefix(cfg, states, events);
      RunErrorsTrue(cfg, states[..n + 1], events[..n]);
      StepErrorsTrue(cfg, states[n], events[n]);
    }
  }

  lemma NoTasksNoErrors(c: Cluster)
    requires Initial(c)
    ensures ErrorsTrue(c)
  {
  }

  /** If the current command of the last task has been run and the task has an error, then the error names it. */
  ghost predicate NamesCurrent(c: Cluster)
  {
    c.tasks != [] ==>
      var t := c.tasks[|c.tasks| - 1];
      !t.completed && InRange(t) && t.error.Some? && Current(t) in c.ran ==> t.error == Some(ExecutionError(t.cursor))
  }

  /** The command that a step moves on to has not been run. */
  lemma MovedOnIsUntried(cfg: Config, states: seq<Cluster>, events: seq<Event>)
    requires ProperRun(cfg, states, events) && events != [] && Last(states).tasks != []
    requires |Last(states).resolved| > |states[|events| - 1].resolved|
    requires var t := Last(states).tasks[|Last(states).tasks| - 1]; !t.completed && InRange(t)
    ensures Current(Last(states).tasks[|Last(states).tasks| - 1]) !in Last(states).ran
  {
    hide Planned, Program, AllSlots, Next, Reads, ReadsInTime, SelectorsSingle, Initial;
    var n, d := |events| - 1, Last(states);
    var now := Current(d.tasks[|d.tasks| - 1]);
    RunPrefix(cfg, states, events);
    RunCurrent(cfg, states, events);
    var at := RunNeverGoesBack(cfg, states[..n + 1], events[..n]);
    RunRunsNext(cfg, states, events, n);
    var c := states[n];
    if now in d.ran {
      if now in c.ran {
        var k :| 0 <= k < |c.ran| && c.ran[k] == now;
        ProgramDistinct(cfg, at[k], |d.resolved|);
      } else {
        ProgramDistinct(cfg, |c.resolved|, |d.resolved|);
      }
    }
  }

  /** A reconcile that leaves no command behind: its error names the current command, or it is the error there was. */
  lemma StuckError(operation: OperationState, t: TaskState, ok: bool)
    requires TaskOk(t) && ResolvedBy(operation, t, ok) == []
    ensures var u := TaskStep(operation, t, ok);
            !u.completed && InRange(u) && u.error.Some? ==>
              || u.error == Some(ExecutionError(u.cursor))
              || (u.error == t.error && u.cursor == t.cursor && !t.completed && InRange(t) && RanBy(operation, t) == [])
  {
    hide TypedMode, TypedRecovery;
  }

  lemma StepNamesCurrent(cfg: Config, c: Cluster, e: Event)
    requires Inv(cfg, c) && NamesCurrent(c) && (e.ReconcileTask? ==> !e.fault.patch)
    requires |Next(cfg, c, e).resolved| == |c.resolved|
    ensures NamesCurrent(Next(cfg, c, e))
  {
    hide Inv, OperationReconciled, GroupReconciled, TaskStep, RanBy, ResolvedBy, FindTask, FindGroup, InRange;
    match e
    case ReconcileOperation(groups, fault) => OperationFrame(cfg, c, groups, fault);
    case ReconcileGroup(name, operation, tasks, fault) =>
      var i := FindGroup(c.groups, name);
      if i < |c.groups| { GroupFrame(cfg, c, i, operation, tasks, fault); }
    case ReconcileTask(agent, name, operation, ok, fault) =>
      var i := FindTask(c.tasks, name);
      if i < |c.tasks| && c.tasks[i].node == agent {
        StoredTaskOk(cfg, c, i);
        TaskStepKeepsTask(operation, c.tasks[i], ok);
        StuckError(operation, c.tasks[i], ok);
        OnlyLastCanBeIncomplete(cfg, c);
        if c.tasks[i].completed { CompletedRuns(operation, c.tasks[i]); }
      }
    case SetPaused(_) =>
    case SetRecovery(name, mode) => InRangeRecovery(c, name, mode);
  }

  lemma CompletedRuns(operation: OperationState, t: TaskState)
    requires t.completed
    ensures RanBy(operation, t) == []
  {
    hide TypedMode, TypedRecovery;
  }

  lemma {:induction false} InRangeRecovery(c: Cluster, name: string, mode: string)
    ensures var i := FindTask(c.tasks, name);
            i < |c.tasks| ==> InRange(c.tasks[i].(recovery := mode)) == InRange(c.tasks[i])
  {
    hide FindTask;
  }

  /** No reconcile of a task loses the status it wants to write. */
  predicate WritesTasks(events: seq<Event>) { forall e <- events :: e.ReconcileTask? ==> !e.fault.patch }

  lemma {:induction false} RunNamesCurrent(cfg: Config, states: seq<Cluster>, events: seq<Event>)
    requires ProperRun(cfg, states, events) && WritesTasks(events)
    ensures NamesCurrent(Last(states))
  {
    hide Planned, Next, Inv, Reads, ReadsInTime, SelectorsSingle, Evolves, NamesCurrent;
    if events == [] {
      assert NamesCurrent(states[0]) by { NoTasksToName(states[0]); }
    } else {
      var n := |events| - 1;
      RunKeeps(cfg, states, events);
      RunPrefix(cfg, states, events);
      RunNamesCurrent(cfg, states[..n + 1], events[..n]);
      ResolvedGrows(cfg, states[n], events[n]);
      if |Last(states).resolved| == |states[n].resolved| {
        assert events[n] in events;
        StepNamesCurrent(cfg, states[n], events[n]);
      } else {
        UntriedNames(cfg, states, events);
      }
    }
  }

  lemma NoTasksToName(c: Cluster)
    requires Initial(c)
    ensures NamesCurrent(c)
  {
  }

  lemma UntriedNames(cfg: Config, states: seq<Cluster>, events: seq<Event>)
    requires ProperRun(cfg, states, events) && events != []
    requires |Last(states).resolved| > |states[|events| - 1].resolved|
    ensures NamesCurrent(Last(states))
  {
    hide ProperRun, InRange;
    RunIsNotEmpty(cfg, states, events);
    var d := Last(states);
    if d.tasks != [] && !d.tasks[|d.tasks| - 1].completed && InRange(d.tasks[|d.tasks| - 1]) {
      MovedOnIsUntried(cfg, states, events);
    }
  }

  /**
   * What the user can tell from the error of the last task: if it names the current command then that command has been
   * run; and if no status of a task was lost on the way, only then.
   */
  lemma ErrorTellsAttempt(cfg: Config, states: seq<Cluster>, events: seq<Event>)
    requires ProperRun(cfg, states, events) && Last(states).tasks != []
    requires var t := Last(states).tasks[|Last(states).tasks| - 1]; !t.completed && InRange(t) && t.error.Some?
    ensures var c := Last(states);
            var t := c.tasks[|c.tasks| - 1];
            && (t.error == Some(ExecutionError(t.cursor)) ==> Current(t) in c.ran)
            && (WritesTasks(events) ==> (t.error == Some(ExecutionError(t.cursor)) <==> Current(t) in c.ran))
  {
    hide ProperRun, InRange, WritesTasks;
    RunErrorsTrue(cfg, states, events);
    if WritesTasks(events) { RunNamesCurrent(cfg, states, events); }
  }

  // ---- a skip ----

  predicate SkipChosen(t: TaskState)
  {
    t.started && !t.completed && InRange(t) && t.error.Some? && TypedRecovery(t.recovery) == SkipFailedCommand
  }

  lemma LastTaskSkips(cfg: Config, c: Cluster, operation: OperationState, ok: bool)
    requires Inv(cfg, c) && c.tasks != [] && SkipChosen(c.tasks[|c.tasks| - 1])
    ensures var t, d := c.tasks[|c.tasks| - 1], Next(cfg, c, LastTaskEvent(c, operation, ok));
            d.ran == c.ran && d.resolved == c.resolved + [Current(t)]
  {
    hide InvOf, FindTask, TypedMode, TypedRecovery, TaskStep;
    LastTaskStep(cfg, c, operation, ok);
    assert TypedRecovery(c.tasks[|c.tasks| - 1].recovery) != UnknownStrategy;
  }

  lemma LastTaskRecovery(cfg: Config, c: Cluster)
    requires Inv(cfg, c) && c.tasks != []
    ensures var n, t := |c.tasks| - 1, c.tasks[|c.tasks| - 1];
            Next(cfg, c, SetRecovery(t.name, "SkipFailedCommand")) ==
              c.(tasks := c.tasks[n := t.(recovery := "SkipFailedCommand")])
  {
    hide InvOf, FindTask;
    LastTaskFound(cfg, c);
  }

  lemma SkipIsKnown()
    ensures TypedRecovery("SkipFailedCommand") == SkipFailedCommand
  {
  }

  /**
   * A skip leaves behind a command that has been run exactly if the error names it, in every run in which no status of
   * a task was lost.
   */
  lemma SkipOfAttempted(cfg: Config, states: seq<Cluster>, events: seq<Event>, operation: OperationState)
    requires ProperRun(cfg, states, events) && WritesTasks(events)
    requires Last(states).tasks != [] && SkipChosen(Last(states).tasks[|Last(states).tasks| - 1])
    ensures var c := Last(states);
            var t, d := c.tasks[|c.tasks| - 1], Next(cfg, c, LastTaskEvent(c, operation, true));
            && d.resolved == c.resolved + [Current(t)] && d.ran == c.ran
            && (Last(d.resolved) in d.ran <==> t.error == Some(ExecutionError(t.cursor)))
  {
    hide ProperRun, InRange, WritesTasks, Next, Inv, TypedRecovery;
    RunSelectors(cfg, states, events);
    ErrorTellsAttempt(cfg, states, events);
    LastTaskSkips(cfg, Last(states), operation, true);
  }

  /**
   * With a lost status it is not so: any run in which the last task is under way before its last command, not paused
   * and not in dry run, can go on so that the task fails, succeeds, keeps the error of the first command, and runs the
   * next one with its status lost: that one has been run, and the error names the one before.
   */
  lemma LostStatusHidesAttempt(cfg: Config, states: seq<Cluster>, events: seq<Event>)
    returns (on: seq<Cluster>, onEvents: seq<Event>)
    requires ProperRun(cfg, states, events) && UnderWay(Last(states))
    requires !Last(states).operation.paused && TypedMode(Last(states).operation.mode) != DryRun
    requires var t := Last(states).tasks[|Last(states).tasks| - 1]; t.cursor < |t.commands|
    ensures ProperRun(cfg, states + on, events + onEvents) && |on| == 3 && Last(on).tasks != []
    ensures var d := Last(on);
            var u := d.tasks[|d.tasks| - 1];
            && !u.completed && InRange(u) && u.error.Some?
            && Current(u) in d.ran && u.error != Some(ExecutionError(u.cursor))
  {
    hide Inv, Next, Reads, ReadsInTime, SelectorsSingle, Evolves, TypedMode, TypedRecovery;
    var c := Last(states);
    var n := |c.tasks| - 1;
    var fails, again := LastTaskEvent(c, c.operation, false), LastTaskEvent(c, c.operation, true);
    FailedTaskIsRunAgain(cfg, states, events, true);
    var c1 := Next(cfg, c, fails);
    var c2 := Next(cfg, c1, again);
    var s2, v2 := states + [c1, c2], events + [fails, again];
    RunKeeps(cfg, s2, v2);
    var u := c2.tasks[n];
    var lost := ReconcileTask(u.node, u.name, c.operation, true, NO_FAULT.(patch := true));
    ReadsThen(s2, lost, |states| - 1);
    GoOnAnyTime(cfg, s2, v2, lost);
    LostRun(cfg, c2, c.operation);
    var c3 := Next(cfg, c2, lost);
    on, onEvents := [c1, c2, c3], [fails, again, lost];
    assert states + on == s2 + [c3] && events + onEvents == v2 + [lost];
  }

  lemma LostRun(cfg: Config, c: Cluster, operation: OperationState)
    requires Inv(cfg, c) && c.tasks != [] && !operation.paused && TypedMode(operation.mode) != DryRun
    requires var t := c.tasks[|c.tasks| - 1];
             t.started && !t.completed && t.commands != [] && TypedRecovery(t.recovery) == UnknownStrategy
    ensures var t := c.tasks[|c.tasks| - 1];
            var d := Next(cfg, c, ReconcileTask(t.node, t.name, operation, true, NO_FAULT.(patch := true)));
            d.tasks == c.tasks && d.ran == c.ran + [Current(t)]
  {
    hide InvOf, FindTask, TypedMode, TypedRecovery, TaskStep, ResolvedBy, TaskOk;
    LastTaskFound(cfg, c);
    StoredTaskOk(cfg, c, |c.tasks| - 1);
    TaskRun(operation, c.tasks[|c.tasks| - 1], true);
  }

  /**
   * Any run in which the last task is under way before its last command, not paused and not in dry run, can go on so
   * that the task fails, succeeds when it is run again, keeps its error, and then has its next command skipped that
   * was never run.
   */
  lemma UntriedCommandIsSkipped(cfg: Config, states: seq<Cluster>, events: seq<Event>)
    returns (on: seq<Cluster>, onEvents: seq<Event>)
    requires ProperRun(cfg, states, events) && UnderWay(Last(states))
    requires !Last(states).operation.paused && TypedMode(Last(states).operation.mode) != DryRun
    requires var t := Last(states).tasks[|Last(states).tasks| - 1]; t.cursor < |t.commands|
    ensures var c := Last(states);
            var t := c.tasks[|c.tasks| - 1];
            var next := CommandRef(t.group, t.node, t.cursor + 1);
            && ProperRun(cfg, states + on, events + onEvents) && |on| == 4
            && Last(on).resolved == c.resolved + [Current(t), next] && next !in Last(on).ran
  {
    hide Inv, Next, Reads, ReadsInTime, SelectorsSingle, Evolves, TypedMode, TypedRecovery;
    RunKeeps(cfg, states, events);
    var c := Last(states);
    var fails, again := LastTaskEvent(c, c.operation, false), LastTaskEvent(c, c.operation, true);
    FailedTaskIsRunAgain(cfg, states, events, true);
    var c1 := Next(cfg, c, fails);
    var c2 := Next(cfg, c1, again);
    RunAttempted(cfg, states + [c1, c2], events + [fails, again]);
    var c3, c4, skip, last := SkipGoesOn(cfg, states + [c1, c2], events + [fails, again]);
    on, onEvents := [c1, c2, c3, c4], [fails, again, skip, last];
    assert states + on == states + [c1, c2] + [c3, c4] && events + onEvents == events + [fails, again] + [skip, last];
  }

  /** Any run in which the last task has an error can go on so that the user has its current command skipped. */
  lemma SkipGoesOn(cfg: Config, states: seq<Cluster>, events: seq<Event>)
    returns (c1: Cluster, c2: Cluster, chosen: Event, skipped: Event)
    requires ProperRun(cfg, states, events) && Last(states).tasks != []
    requires var t := Last(states).tasks[|Last(states).tasks| - 1];
             t.started && !t.completed && InRange(t) && t.error.Some?
    ensures ProperRun(cfg, states + [c1, c2], events + [chosen, skipped])
    ensures var c := Last(states);
            c2.ran == c.ran && c2.resolved == c.resolved + [Current(c.tasks[|c.tasks| - 1])]
  {
    hide Inv, Next, Reads, ReadsInTime, SelectorsSingle, Evolves, TypedRecovery;
    RunKeeps(cfg, states, events);
    var c := Last(states);
    chosen := SetRecovery(c.tasks[|c.tasks| - 1].name, "SkipFailedCommand");
    c1 := Next(cfg, c, chosen);
    ReadsNothing(states, chosen);
    GoOnAnyTime(cfg, states, events, chosen);
    LastTaskRecovery(cfg, c);
    SkipIsKnown();
    var s, v := states + [c1], events + [chosen];
    RunKeeps(cfg, s, v);
    LastTaskSkips(cfg, c1, c1.operation, true);
    skipped := LastTaskEvent(c1, c1.operation, true);
    ReadsNow(s, skipped);
    GoOnAnyTime(cfg, s, v, skipped);
    c2 := Next(cfg, c1, skipped);
    assert s + [c2] == states + [c1, c2] && v + [skipped] == events + [chosen, skipped];
  }

  lemma ReadsNothing(states: seq<Cluster>, e: Event)
    requires e.SetRecovery?
    ensures Reads(states, e)
  {
  }
}
