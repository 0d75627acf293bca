/** Every fair schedule of undisturbed controllers completes the operation. */
module Fairness {
  import opened Names
  import opened Api
  import opened Matching
  import opened Machine
  import opened Schedule
  import opened Safety
  import opened Guarantees
  import opened Modes
  import opened Progress
  import opened Liveness
  import opened Plans
  import opened Selectors
  import opened Workflows

  // ---- schedules ----

  /** A scheduled move: that of an agent is no move at all while there are no agents. */
  function Scheduled(cfg: Config, c: Cluster, m: Move): Cluster
  {
    if Possible(c, m) then Moved(cfg, c, m) else c
  }

  function Play(cfg: Config, c: Cluster, moves: seq<Move>): Cluster
    decreases |moves|
  {
    if moves == [] then c else Play(cfg, Scheduled(cfg, c, moves[0]), moves[1..])
  }

  function PlayRounds(cfg: Config, c: Cluster, rounds: seq<seq<Move>>): Cluster
    decreases |rounds|
  {
    if rounds == [] then c else PlayRounds(cfg, Play(cfg, c, rounds[0]), rounds[1..])
  }

  /**
   * In a fair round every object that the plan can lead to is reconciled at least once, in any order and as often as
   * you like.
   */
  ghost predicate Fair(cfg: Config, round: seq<Move>)
  {
    && MoveOperation in round
    && (forall p <- Planned(cfg) :: MoveGroup(p.name) in round)
    && (forall s <- AllSlots(cfg) :: MoveTask(s.node, TaskName(s.spec.name, s.node)) in round)
  }

  // ---- how far things are between two units of work ----

  /** What stands between the last group or task and its next unit of work; more is nearer. */
  function Stage(c: Cluster): nat
  {
    if LastGroupDone(c) then 4
    else if !LastTaskRuns(c) then (if c.operation.paused then 3 else 4)
    else if c.groups[|c.groups| - 1].error.Some? then 0
    else if c.operation.error.Some? || c.operation.paused then 1
    else if !c.daemonSet then 2
    else if c.tasks[|c.tasks| - 1].error.Some? then 3
    else 4
  }

  /** The move that is needed next. */
  function Trigger(c: Cluster): Move
  {
    if LastGroupDone(c) then MoveOperation
    else if !LastTaskRuns(c) then (if c.operation.paused then MoveOperation else MoveLastGroup(c))
    else if c.groups[|c.groups| - 1].error.Some? then MoveLastGroup(c)
    else if c.operation.error.Some? || c.operation.paused || !c.daemonSet then MoveOperation
    else MoveTask(c.tasks[|c.tasks| - 1].node, c.tasks[|c.tasks| - 1].name)
  }

  function Rank(c: Cluster): nat { 5 * Done(c) + Stage(c) }

  /** The move `m` from `c` to `d` loses nothing, and gains something if it was the one needed. */
  ghost predicate Gains(c: Cluster, m: Move, d: Cluster)
  {
    && (Rank(d) > Rank(c) || (Rank(d) == Rank(c) && Trigger(d) == Trigger(c)))
    && (m == Trigger(c) ==> Rank(d) > Rank(c))
  }

  lemma MoreWorkGains(c: Cluster, m: Move, d: Cluster)
    requires Done(d) > Done(c)
    ensures Gains(c, m, d)
  {
    hide Done, Trigger, LastGroupDone, LastTaskRuns;
  }

  lemma SameWorkGains(c: Cluster, m: Move, d: Cluster)
    requires Done(d) == Done(c)
    requires Stage(d) > Stage(c) || (Stage(d) == Stage(c) && Trigger(d) == Trigger(c) && m != Trigger(c))
    ensures Gains(c, m, d)
  {
    hide Done, Trigger, Stage;
  }

  lemma NothingGains(c: Cluster, m: Move)
    requires m != Trigger(c)
    ensures Gains(c, m, c)
  {
    hide Trigger, Rank;
  }

  // ---- one move ----

  lemma OperationGains(cfg: Config, c: Cluster)
    requires SelectorsSingle(cfg) && Healthy(cfg, c) && !c.operation.completed
    ensures Gains(c, MoveOperation, Moved(cfg, c, MoveOperation))
  {
    hide Inv, Done, SelectorsSingle, SelectorsWork, DistinctTaskNames, CommandsEverywhere, TypedMode, IsFailed, Moved,
         Gains;
    var d := Moved(cfg, c, MoveOperation);
    if LastGroupDone(c) {
      OperationMovesOn(cfg, c);
      MoreWorkGains(c, MoveOperation, d);
    } else {
      OperationWaits(cfg, c);
      SameWorkGains(c, MoveOperation, d);
    }
  }

  lemma GroupGains(cfg: Config, c: Cluster, name: string)
    requires SelectorsSingle(cfg) && Healthy(cfg, c) && !c.operation.completed
    ensures Gains(c, MoveGroup(name), Moved(cfg, c, MoveGroup(name)))
  {
    hide Inv, Done, SelectorsSingle, SelectorsWork, DistinctTaskNames, CommandsEverywhere, TypedMode, IsFailed, Moved,
         Gains, LastTaskRuns, FindGroup, GroupReconciled;
    var k := |c.groups|;
    if LastGroupDone(c) || name != c.groups[k - 1].spec.name {
      OtherGroup(cfg, c, name);
      NothingGains(c, MoveGroup(name));
    } else if LastTaskRuns(c) {
      RunningIsOpen(c);
      GroupWaits(cfg, c);
      RunsStill(c, Moved(cfg, c, MoveGroup(name)));
      SameWorkGains(c, MoveGroup(name), Moved(cfg, c, MoveGroup(name)));
    } else if c.operation.paused {
      PausedGroup(cfg, c);
    } else {
      NothingBeforeStart(cfg, c);
      LastWorks(cfg, c);
      NotRunningIsDone(cfg, c);
      if !c.groups[k - 1].started { GroupStarts(cfg, c); } else { GroupMovesOn(cfg, c); }
      MoreWorkGains(c, MoveGroup(name), Moved(cfg, c, MoveGroup(name)));
    }
  }

  lemma RunningIsOpen(c: Cluster)
    requires LastTaskRuns(c)
    ensures LastTaskOpen(c) && !LastTaskFailed(c)
  {
  }

  lemma RunsStill(c: Cluster, d: Cluster)
    requires d.tasks == c.tasks
    ensures LastTaskRuns(d) == LastTaskRuns(c)
  {
  }

  /** In a healthy state the last task is done unless it runs. */
  lemma NotRunningIsDone(cfg: Config, c: Cluster)
    requires Healthy(cfg, c) && !LastTaskRuns(c)
    ensures LastDone(c.tasks)
  {
    hide Inv, SelectorsWork, DistinctTaskNames, CommandsEverywhere, TypedMode, IsFailed;
  }

  lemma OtherGroup(cfg: Config, c: Cluster, name: string)
    requires Inv(cfg, c) && (LastGroupDone(c) || name != c.groups[|c.groups| - 1].spec.name)
    ensures Moved(cfg, c, MoveGroup(name)) == c
  {
    hide InvOf, FindGroup, GroupReconciled;
    var i := FindGroup(c.groups, name);
    if i < |c.groups| {
      if !c.groups[i].completed { OnlyLastIncomplete(cfg, c, i); }
      CompletedGroupStays(cfg, c, i);
    }
  }

  lemma CompletedGroupStays(cfg: Config, c: Cluster, i: nat)
    requires i < |c.groups|
    ensures c.groups[i].completed ==> GroupReconciled(cfg, c, i, c.operation, c.tasks, NO_FAULT) == c
  {
    hide TaskViews, DesiredNodes, TasksOf, Listable, GroupStep, GroupActs, TypedMode;
  }

  lemma PausedGroup(cfg: Config, c: Cluster)
    requires SelectorsSingle(cfg) && Healthy(cfg, c) && !LastGroupDone(c) && !LastTaskRuns(c) && c.operation.paused
    ensures Gains(c, MoveLastGroup(c), Moved(cfg, c, MoveLastGroup(c)))
  {
    hide Inv, Done, SelectorsSingle, SelectorsWork, DistinctTaskNames, CommandsEverywhere, TypedMode, IsFailed, Gains,
         LastTaskRuns, GroupReconciled;
    var i := FindGroup(c.groups, c.groups[|c.groups| - 1].spec.name);
    var d := Moved(cfg, c, MoveLastGroup(c));
    MovedKeeps(cfg, c, MoveLastGroup(c));
    GroupFrame(cfg, c, i, c.operation, c.tasks, NO_FAULT);
    FrozenGroupStep(cfg, c, i, c.operation, c.tasks, NO_FAULT);
    RunsStill(c, d);
    if Done(d) > Done(c) {
      MoreWorkGains(c, MoveLastGroup(c), d);
    } else {
      SameWorkGains(c, MoveLastGroup(c), d);
    }
  }

  lemma TaskGains(cfg: Config, c: Cluster, agent: string, name: string)
    requires SelectorsSingle(cfg) && Healthy(cfg, c) && !c.operation.completed && c.daemonSet
    ensures Gains(c, MoveTask(agent, name), Moved(cfg, c, MoveTask(agent, name)))
  {
    hide Inv, Done, SelectorsSingle, SelectorsWork, DistinctTaskNames, CommandsEverywhere, TypedMode, IsFailed, Moved,
         Gains;
    var n := |c.tasks| - 1;
    if !LastTaskRuns(c) || name != c.tasks[n].name || agent != c.tasks[n].node {
      OtherTask(cfg, c, agent, name);
      if MoveTask(agent, name) == Trigger(c) { } else { NothingGains(c, MoveTask(agent, name)); }
    } else {
      LastTaskGains(cfg, c);
    }
  }

  /** A completed task, or one that is not the agent's, is left alone. */
  lemma OtherTask(cfg: Config, c: Cluster, agent: string, name: string)
    requires Healthy(cfg, c)
    requires var n := |c.tasks| - 1; !LastTaskRuns(c) || name != c.tasks[n].name || agent != c.tasks[n].node
    ensures Moved(cfg, c, MoveTask(agent, name)) == c
  {
    hide Planned, Slots, GroupsInOrder, LastGroup, FindTask, SelectorsWork, DistinctTaskNames, CommandsEverywhere,
         TypedMode, IsFailed, TaskOk, Fits, TaskStep, RanBy, ResolvedBy;
    var i := FindTask(c.tasks, name);
    if i < |c.tasks| && c.tasks[i].completed { CompletedIsLeftAlone(c.operation, c.tasks[i]); }
  }

  lemma CompletedIsLeftAlone(operation: OperationState, t: TaskState)
    requires t.completed
    ensures TaskStep(operation, t, true) == t && RanBy(operation, t) == [] && ResolvedBy(operation, t, true) == []
  {
    hide TypedMode, TypedRecovery;
  }

  lemma LastTaskGains(cfg: Config, c: Cluster)
    requires SelectorsSingle(cfg) && Healthy(cfg, c) && !c.operation.completed && c.daemonSet && LastTaskRuns(c)
    ensures var t := c.tasks[|c.tasks| - 1];
            Gains(c, MoveTask(t.node, t.name), Moved(cfg, c, MoveTask(t.node, t.name)))
  {
    hide InvOf, Done, SelectorsSingle, SelectorsWork, DistinctTaskNames, CommandsEverywhere, TypedMode, IsFailed,
         Gains, Moved, TaskOk;
    var n, t := |c.tasks| - 1, c.tasks[|c.tasks| - 1];
    var m := MoveTask(t.node, t.name);
    var d := Moved(cfg, c, m);
    OnlyLastCanBeIncomplete(cfg, c);
    MovedKeeps(cfg, c, m);
    HealthyStays(cfg, c, m);
    if !c.operation.paused {
      if TypedMode(c.operation.mode) != DryRun { StoredCommands(cfg, c); }
      TaskMovesOn(cfg, c);
    }
    LastTaskFrame(cfg, c);
    if Done(d) > Done(c) {
      MoreWorkGains(c, m, d);
    } else {
      SameWorkGains(c, m, d);
    }
  }

  lemma LastTaskFrame(cfg: Config, c: Cluster)
    requires Inv(cfg, c) && LastTaskRuns(c)
    ensures var n, t := |c.tasks| - 1, c.tasks[|c.tasks| - 1];
            var d := Moved(cfg, c, MoveTask(t.node, t.name));
            && d.operation == c.operation && d.groups == c.groups && d.daemonSet == c.daemonSet && |d.tasks| == n + 1
            && (Done(d) == Done(c) ==> !d.tasks[n].completed)
  {
    hide Planned, InvOf, TypedMode, TasksWork, GroupsWork, TaskStep, RanBy, ResolvedBy, IsFailed;
    var n, t := |c.tasks| - 1, c.tasks[|c.tasks| - 1];
    LastTaskFound(cfg, c);
    StoredTaskOk(cfg, c, n);
    TaskStepKeepsTask(c.operation, t, true);
    TasksWorkUpdate(c.tasks, n, TaskStep(c.operation, t, true));
  }

  lemma MoveGains(cfg: Config, c: Cluster, m: Move)
    requires SelectorsSingle(cfg) && Healthy(cfg, c) && !c.operation.completed
    ensures Gains(c, m, Scheduled(cfg, c, m)) && Healthy(cfg, Scheduled(cfg, c, m))
  {
    hide SelectorsSingle, Healthy, Moved, Gains;
    if Possible(c, m) {
      HealthyStays(cfg, c, m);
      match m
      case MoveOperation => OperationGains(cfg, c);
      case MoveGroup(name) => GroupGains(cfg, c, name);
      case MoveTask(agent, name) => TaskGains(cfg, c, agent, name);
    } else {
      NothingGains(c, m);
    }
  }

  // ---- rounds ----

  lemma ScheduledStays(cfg: Config, c: Cluster, m: Move)
    requires SelectorsSingle(cfg) && Inv(cfg, c)
    ensures Inv(cfg, Scheduled(cfg, c, m))
    ensures c.operation.completed ==> Scheduled(cfg, c, m).operation.completed
  {
    hide InvOf, SelectorsSingle, Moved, Done, GroupsEvolve, TasksEvolve;
    if Possible(c, m) { MovedKeeps(cfg, c, m); }
  }

  lemma {:induction false} PlayStays(cfg: Config, c: Cluster, moves: seq<Move>)
    requires SelectorsSingle(cfg) && Inv(cfg, c) && c.operation.completed
    ensures Inv(cfg, Play(cfg, c, moves)) && Play(cfg, c, moves).operation.completed
    decreases |moves|
  {
    hide Inv, SelectorsSingle, Scheduled;
    if moves != [] {
      ScheduledStays(cfg, c, moves[0]);
      PlayStays(cfg, Scheduled(cfg, c, moves[0]), moves[1..]);
    }
  }

  lemma {:induction false} PlayGains(cfg: Config, c: Cluster, moves: seq<Move>)
    requires SelectorsSingle(cfg) && Healthy(cfg, c) && !c.operation.completed
    ensures var d := Play(cfg, c, moves);
            && Inv(cfg, d)
            && (!d.operation.completed ==>
                  && Healthy(cfg, d) && Rank(d) >= Rank(c)
                  && (Rank(d) == Rank(c) ==> Trigger(d) == Trigger(c))
                  && (Trigger(c) in moves ==> Rank(d) > Rank(c)))
    decreases |moves|
  {
    hide Inv, SelectorsSingle, Scheduled, Trigger, Rank, DistinctTaskNames, CommandsEverywhere, SelectorsWork,
         TypedMode, IsFailed;
    if moves != [] {
      var c1 := Scheduled(cfg, c, moves[0]);
      MoveGains(cfg, c, moves[0]);
      if c1.operation.completed {
        PlayStays(cfg, c1, moves[1..]);
      } else {
        PlayGains(cfg, c1, moves[1..]);
        assert moves == [moves[0]] + moves[1..];
      }
    }
  }

  lemma TriggerIsFair(cfg: Config, c: Cluster, round: seq<Move>)
    requires Inv(cfg, c) && Fair(cfg, round)
    ensures Trigger(c) in round
  {
    hide Planned, Slots, LastGroup, IsFailed, Works, TaskName, GroupOk, TaskOk;
    if !LastGroupDone(c) {
      var k := |c.groups|;
      assert c.groups[k - 1].spec == Planned(cfg)[k - 1];
      assert Planned(cfg)[k - 1] in Planned(cfg);
    }
    if LastTaskRuns(c) {
      var k, n := |c.groups|, |c.tasks| - 1;
      assert Fits(c.tasks[n], Slots(cfg, k)[n]);
      SlotsPrefix(cfg, k, |Planned(cfg)|);
      assert AllSlots(cfg)[n] == Slots(cfg, k)[n];
      assert AllSlots(cfg)[n] in AllSlots(cfg);
    }
  }

  lemma RankBound(cfg: Config, c: Cluster)
    requires Inv(cfg, c) && !c.operation.completed
    ensures Rank(c) < 5 * Total(cfg)
  {
    hide Inv, Done, Total;
    AllWorkDone(cfg, c);
  }

  /**
   * From a healthy state every fair schedule completes the operation, within five rounds for each unit of work there
   * is.
   */
  lemma {:induction false} FairSchedulesComplete(cfg: Config, c: Cluster, rounds: seq<seq<Move>>)
    requires SelectorsSingle(cfg) && Inv(cfg, c) && (Healthy(cfg, c) || c.operation.completed)
    requires forall round <- rounds :: Fair(cfg, round)
    requires c.operation.completed || |rounds| + Rank(c) >= 5 * Total(cfg)
    ensures PlayRounds(cfg, c, rounds).operation.completed
    decreases |rounds|
  {
    hide Inv, Healthy, SelectorsSingle, Fair, Play, Rank, Total;
    if rounds == [] {
      if !c.operation.completed { RankBound(cfg, c); }
    } else {
      var d := Play(cfg, c, rounds[0]);
      assert rounds[0] in rounds;
      assert forall round <- rounds[1..] :: round in rounds;
      if c.operation.completed {
        PlayStays(cfg, c, rounds[0]);
      } else {
        TriggerIsFair(cfg, c, rounds[0]);
        PlayGains(cfg, c, rounds[0]);
      }
      FairSchedulesComplete(cfg, d, rounds[1..]);
    }
  }

  // ---- rounds with disturbances between them ----

  /** A fair round, or one step of anything: a stale read, a failed call, a failed command, a move of the user. */
  datatype Leg = FairRound(moves: seq<Move>) | Disturbance(e: Event)

  /** What any step of a run meets: the list was stored earlier, and is not too old for a group that borrows. */
  ghost predicate Allowed(cfg: Config, c: Cluster, e: Event)
  {
    exists h :: Inv(cfg, h) && Evolves(h, c) && ReadsListOf(h, e) && Timely(cfg, c, h, e)
  }

  function Arrived(cfg: Config, c: Cluster, leg: Leg): Cluster
  {
    match leg
    case FairRound(moves) => Play(cfg, c, moves)
    case Disturbance(e) => Next(cfg, c, e)
  }

  function Travel(cfg: Config, c: Cluster, legs: seq<Leg>): Cluster
    decreases |legs|
  {
    if legs == [] then c else Travel(cfg, Arrived(cfg, c, legs[0]), legs[1..])
  }

  /** Fair rounds start from healthy states; what comes between them is up to chance. */
  ghost predicate Journey(cfg: Config, c: Cluster, legs: seq<Leg>)
    decreases |legs|
  {
    legs != [] ==>
      && (match legs[0]
          case FairRound(moves) => Fair(cfg, moves) && (Healthy(cfg, c) || c.operation.completed)
          case Disturbance(e) => Allowed(cfg, c, e))
      && Journey(cfg, Arrived(cfg, c, legs[0]), legs[1..])
  }

  /** One for a fair round, minus four for a disturbance. */
  function Credit(legs: seq<Leg>): int
    decreases |legs|
  {
    if legs == [] then 0 else (if legs[0].FairRound? then 1 else -4) + Credit(legs[1..])
  }

  lemma DisturbanceCosts(cfg: Config, c: Cluster, e: Event)
    requires SelectorsSingle(cfg) && Inv(cfg, c) && Allowed(cfg, c, e)
    ensures var d := Next(cfg, c, e);
            && Inv(cfg, d) && (c.operation.completed ==> d.operation.completed) && Rank(d) + 4 >= Rank(c)
  {
    hide Inv, SelectorsSingle, Next, Done, GroupsEvolve, TasksEvolve, Timely, ReadsListOf, LastGroupDone, LastTaskRuns;
    var h :| Inv(cfg, h) && Evolves(h, c) && ReadsListOf(h, e) && Timely(cfg, c, h, e);
    StepKeeps(cfg, h, c, e);
    StepWork(cfg, c, e);
  }

  /**
   * Whatever happens between the fair rounds, as long as each of them finds the system healthy again: every fair round
   * brings the operation nearer to completion, and every disturbance costs at most four rounds.
   */
  lemma {:induction false} FairJourneysComplete(cfg: Config, c: Cluster, legs: seq<Leg>)
    requires SelectorsSingle(cfg) && Inv(cfg, c) && Journey(cfg, c, legs)
    requires c.operation.completed || Credit(legs) + Rank(c) >= 5 * Total(cfg)
    ensures Travel(cfg, c, legs).operation.completed
    decreases |legs|
  {
    hide Inv, Healthy, SelectorsSingle, Fair, Play, Rank, Total, Allowed, Next;
    if legs == [] {
      if !c.operation.completed { RankBound(cfg, c); }
    } else {
      match legs[0] {
        case FairRound(moves) =>
          if c.operation.completed {
            PlayStays(cfg, c, moves);
          } else {
            TriggerIsFair(cfg, c, moves);
            PlayGains(cfg, c, moves);
          }
        case Disturbance(e) => DisturbanceCosts(cfg, c, e);
      }
      FairJourneysComplete(cfg, Arrived(cfg, c, legs[0]), legs[1..]);
    }
  }

  /** A fresh operation that can complete on its own at all is completed by every fair schedule. */
  lemma {:induction false} CompletableIsFair(cfg: Config, c: Cluster, rounds: seq<seq<Move>>)
    requires SelectorsSingle(cfg) && Initial(c) && !c.operation.specPaused && Completable(cfg, c)
    requires |rounds| >= 5 * Total(cfg) && forall round <- rounds :: Fair(cfg, round)
    ensures PlayRounds(cfg, c, rounds).operation.completed
  {
    hide InvOf, Total, Rank, SelectorsSingle, Completable, SelectorsWork, DistinctTaskNames, CommandsEverywhere,
         TypedMode, PlayRounds, Fair;
    CompletesExactly(cfg, c);
    InitialInv(cfg, c);
    FairSchedulesComplete(cfg, c, rounds);
  }

  /** Every fair schedule completes an upgrade or a certificate renewal, whatever its name, nodes and mode. */
  lemma {:induction false} BuiltInPlansAreCarriedOut(op: Request, nodes: seq<Node>, c: Cluster, rounds: seq<seq<Move>>)
    requires (op.renewCertificates || op.upgrade) && Initial(c) && !c.operation.specPaused
    requires var cfg := Config(TaskGroupList(op).value, nodes);
             |rounds| >= 5 * Total(cfg) && forall round <- rounds :: Fair(cfg, round)
    ensures PlayRounds(Config(TaskGroupList(op).value, nodes), c, rounds).operation.completed
  {
    hide RenewPlan, UpgradePlan, Total, SelectorsSingle, SelectorsWork, Completable, PlayRounds, Fair, Initial;
    BuiltInPlansSelect(op, nodes);
    PlansSingle(op, nodes);
    BuiltInPlansComplete(op, nodes, c);
    CompletableIsFair(Config(TaskGroupList(op).value, nodes), c, rounds);
  }
}
