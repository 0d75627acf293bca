/** What undisturbed controllers can always reach, and exactly when that is completion. */
module Liveness {
  import opened Names
  import opened Api
  import opened Matching
  import opened Machine
  import opened Schedule
  import opened Safety
  import opened Guarantees
  import opened Modes
  import opened Progress

  // ---- undisturbed moves: fresh reads, no failing call, every command succeeds, no user ----

  datatype Move = MoveOperation | MoveGroup(name: string) | MoveTask(agent: string, name: string)

  function Fresh(c: Cluster, m: Move): Event
  {
    match m
    case MoveOperation => ReconcileOperation(c.groups, NO_FAULT)
    case MoveGroup(name) => ReconcileGroup(name, c.operation, c.tasks, NO_FAULT)
    case MoveTask(agent, name) => ReconcileTask(agent, name, c.operation, true, NO_FAULT)
  }

  function Moved(cfg: Config, c: Cluster, m: Move): Cluster { Next(cfg, c, Fresh(c, m)) }

  /** Task controllers live in the agents that the daemon set deploys. */
  predicate Possible(c: Cluster, m: Move) { m.MoveTask? ==> c.daemonSet }

  function After(cfg: Config, c: Cluster, moves: seq<Move>): Cluster
  {
    if moves == [] then c else Moved(cfg, After(cfg, c, moves[..|moves| - 1]), moves[|moves| - 1])
  }

  predicate AllPossible(cfg: Config, c: Cluster, moves: seq<Move>)
  {
    moves != [] ==>
      AllPossible(cfg, c, moves[..|moves| - 1]) && Possible(After(cfg, c, moves[..|moves| - 1]), moves[|moves| - 1])
  }

  lemma {:induction false} AfterOne(cfg: Config, c: Cluster, moves: seq<Move>, m: Move)
    ensures After(cfg, c, moves + [m]) == Moved(cfg, After(cfg, c, moves), m)
    ensures AllPossible(cfg, c, moves + [m]) <==> AllPossible(cfg, c, moves) && Possible(After(cfg, c, moves), m)
  {
    hide Moved, Possible;
    assert (moves + [m])[..|moves|] == moves;
  }

  lemma MovedKeeps(cfg: Config, c: Cluster, m: Move)
    requires SelectorsSingle(cfg) && Inv(cfg, c)
    ensures Inv(cfg, Moved(cfg, c, m)) && Evolves(c, Moved(cfg, c, m))
    ensures Done(c) <= Done(Moved(cfg, c, m)) <= Done(c) + 1
  {
    hide Inv, Next, SelectorsSingle, Evolves, Done, Timely;
    SelfEvolves(c);
    FreshIsTimely(cfg, c, Fresh(c, m));
    StepKeeps(cfg, c, c, Fresh(c, m));
    StepWork(cfg, c, Fresh(c, m));
  }

  // ---- what one move does ----

  predicate LastGroupDone(c: Cluster) { c.groups == [] || c.groups[|c.groups| - 1].completed }

  /** The operation controller, all groups being done: start, complete or create the next group. */
  lemma OperationMovesOn(cfg: Config, c: Cluster)
    requires SelectorsSingle(cfg) && Inv(cfg, c) && LastGroupDone(c) && !c.operation.completed
        && !c.operation.specPaused
    ensures Done(Moved(cfg, c, MoveOperation)) > Done(c)
  {
    hide Planned, InvOf, GroupViews, FindGroup, GroupsWork, TasksWork, DaemonSetShouldBeRunning, SelectorsSingle,
         GroupsInOrder;
    InOrder(cfg, c);
    LastSpec(cfg, c);
    var w := OperationSees(cfg, c.groups);
    var k, p := |c.groups|, Planned(cfg);
    var o := c.operation.(paused := false, counters := w.Counters());
    var (o1, create) := OperationNormal(w, o);
    if create.Some? {
      GroupAt(cfg, c.groups, k);
      GroupsWorkAppend(c.groups, NewGroup(p[k]));
    }
  }

  /** The operation controller while the last group is not done: no work, but pause, error and daemon set follow. */
  lemma OperationWaits(cfg: Config, c: Cluster)
    requires SelectorsSingle(cfg) && Inv(cfg, c) && !LastGroupDone(c)
    ensures var d, g := Moved(cfg, c, MoveOperation), c.groups[|c.groups| - 1];
            && d.groups == c.groups && d.tasks == c.tasks && Done(d) == Done(c)
            && d.operation.specPaused == c.operation.specPaused && d.operation.paused == c.operation.specPaused
            && (g.error.None? <==> d.operation.error.None?)
            && d.operation.mode == c.operation.mode && !d.operation.completed
            && d.daemonSet == c.operation.error.None?
  {
    hide Planned, InvOf, GroupViews, FindGroup, GroupsWork, TasksWork, SelectorsSingle, GroupsInOrder;
    InOrder(cfg, c);
    OnlyLastIncomplete(cfg, c, |c.groups| - 1);
    StartedWithGroups(cfg, c);
    var w := OperationSees(cfg, c.groups);
  }

  lemma StartedWithGroups(cfg: Config, c: Cluster)
    requires Inv(cfg, c) && c.groups != []
    ensures c.operation.started
  {
    hide Planned, Slots, TasksInOrder, LastGroup, GroupsInOrder;
  }

  function MoveLastGroup(c: Cluster): Move
    requires c.groups != []
  {
    MoveGroup(c.groups[|c.groups| - 1].spec.name)
  }

  /** The last group can be completed. */
  predicate LastGroupWorks(cfg: Config, c: Cluster)
  {
    c.groups != [] ==> |c.groups| <= |Planned(cfg)| && Works(cfg, |c.groups| - 1)
  }

  lemma LastWorks(cfg: Config, c: Cluster)
    requires Inv(cfg, c) && SelectorsWork(cfg)
    ensures LastGroupWorks(cfg, c)
  {
    hide Planned, InvOf, Works;
    LastSpec(cfg, c);
  }

  /** What a reconcile of the last group sees, with everything it reads current. */
  function LastViews(cfg: Config, c: Cluster): Views<TaskItem>
    requires c.groups != []
  {
    var spec := c.groups[|c.groups| - 1].spec;
    TaskViews(DesiredNodes(cfg.nodes, spec), TasksOf(c.tasks, spec))
  }

  /** A group reconcile of the last group, which is not done, with everything it reads current. */
  lemma LastGroupMove(cfg: Config, c: Cluster)
    requires SelectorsSingle(cfg) && Inv(cfg, c) && !LastGroupDone(c) && Listable(c.groups[|c.groups| - 1].spec)
    ensures var k := |c.groups|;
            && 0 < k <= |Planned(cfg)| && c.groups[k - 1].spec == Planned(cfg)[k - 1]
            && var (g, create) := GroupStep(c.operation, c.groups[k - 1], LastViews(cfg, c));
               Moved(cfg, c, MoveLastGroup(c)) == GroupActs(c, k - 1, g, create, TypedMode(c.operation.mode), NO_FAULT)
  {
    hide Planned, InvOf, TaskViews, DesiredNodes, Listable, TasksOf, GroupStep, SelectorsSingle, GroupsInOrder,
         FindGroup, GroupActs, TypedMode;
    LastSpec(cfg, c);
    InOrder(cfg, c);
    GroupAt(cfg, c.groups, |c.groups| - 1);
  }

  /** The last group, which finds its own tasks, sees exactly those after the tasks of the groups before. */
  lemma OwnTasksSeen(cfg: Config, c: Cluster) returns (list: seq<TaskState>)
    requires SelectorsSingle(cfg) && Inv(cfg, c) && !LastGroupDone(c)
    requires Listable(c.groups[|c.groups| - 1].spec) && FindsOwn(c.groups[|c.groups| - 1].spec)
    ensures var k := |c.groups|;
            && k <= |Planned(cfg)| && |Slots(cfg, k - 1)| <= |c.tasks| && list == c.tasks[|Slots(cfg, k - 1)|..]
            && Made(cfg, k - 1) == NodesOf(cfg, Planned(cfg)[k - 1])
            && SeesTasks(LastViews(cfg, c), Made(cfg, k - 1), list)
  {
    hide Planned, InvOf, TaskViews, DesiredNodes, Listable, TasksOf, SelectorsSingle, GroupsInOrder, NodesOf, SeesTasks,
         FindsOwn, Made;
    var k := |c.groups|;
    LastSpec(cfg, c);
    NothingBeforeStart(cfg, c);
    var w;
    list, w := GroupSees(cfg, c, k - 1);
  }

  /** The last group, which does not find its own tasks, sees the completed ones of its lender. */
  lemma {:induction false} LentTasksSeen(cfg: Config, c: Cluster)
    requires SelectorsSingle(cfg) && Inv(cfg, c) && !LastGroupDone(c) && !FindsOwn(c.groups[|c.groups| - 1].spec)
    ensures var k := |c.groups|;
            && k <= |Planned(cfg)|
            && SeesBorrowed(LastViews(cfg, c), NodesOf(cfg, Planned(cfg)[k - 1]), Borrowed(cfg, k - 1))
  {
    hide Planned, InvOf, TaskViews, DesiredNodes, TasksOf, SelectorsSingle, GroupsInOrder, NodesOf, SeesBorrowed,
         FindsOwn, Borrowed, LenderDone;
    LastSpec(cfg, c);
    LenderIsDone(cfg, c, |c.groups| - 1);
    var w := GroupSeesLent(cfg, c, |c.groups| - 1);
  }

  /** What the last group sees that works, when no task is open: nothing wrong, and the next task to create if any. */
  ghost predicate SeesRest(cfg: Config, c: Cluster, w: Views<TaskItem>)
    requires 0 < |c.groups| <= |Planned(cfg)|
  {
    var k, m := |c.groups|, |c.tasks|;
    && w.Active() == 0 && |w.failed| == 0 && |w.invalid| == 0 && m <= |Slots(cfg, k)|
    && (|w.completed| == |w.all| <==> m == |Slots(cfg, k)|)
    && (m < |Slots(cfg, k)| ==>
          |w.tobeCreated| > 0 && Slots(cfg, k)[m] == Slot(Planned(cfg)[k - 1], w.tobeCreated[0].name))
  }

  lemma RestSeen(cfg: Config, c: Cluster)
    requires SelectorsSingle(cfg) && Inv(cfg, c) && LastGroupWorks(cfg, c) && !LastGroupDone(c) && LastDone(c.tasks)
    ensures |c.groups| <= |Planned(cfg)| && SeesRest(cfg, c, LastViews(cfg, c))
  {
    hide Planned, InvOf, LastViews, Listable, Finds, SelectorsSingle, NodesOf, Made, Borrowed, Slots, IsFailed;
    var k := |c.groups|;
    LastSpec(cfg, c);
    NothingBeforeStart(cfg, c);
    SlotCount(cfg, k - 1);
    if FindsOwn(c.groups[k - 1].spec) {
      var list := OwnTasksSeen(cfg, c);
      LastDoneIsNotFailed(cfg, c);
      if |c.tasks| < |Slots(cfg, k)| { SlotAt(cfg, k - 1, k, |c.tasks|); }
    } else {
      LentTasksSeen(cfg, c);
      LentSlots(cfg, k - 1);
    }
  }

  /** Not yet started: it starts. */
  lemma GroupStarts(cfg: Config, c: Cluster)
    requires SelectorsSingle(cfg) && Inv(cfg, c) && LastGroupWorks(cfg, c)
    requires !LastGroupDone(c) && !c.groups[|c.groups| - 1].started
    ensures Done(Moved(cfg, c, MoveLastGroup(c))) > Done(c)
  {
    hide Planned, Borrowed, Finds, Listable, InvOf, Slots, NodesOf, TasksWork, GroupsWork, SelectorsSingle, Moved,
         FindTask, TypedMode, LastViews;
    var k := |c.groups|;
    LastSpec(cfg, c);
    NothingBeforeStart(cfg, c);
    LastGroupMove(cfg, c);
    RestSeen(cfg, c);
    var (g, create) := GroupStep(c.operation, c.groups[k - 1], LastViews(cfg, c));
    GroupsWorkUpdate(c.groups, k - 1, PhasedGroup(g));
  }

  lemma {:induction false} NothingBeforeStart(cfg: Config, c: Cluster)
    requires Inv(cfg, c) && !LastGroupDone(c)
    ensures |c.groups| <= |Planned(cfg)| && |Slots(cfg, |c.groups| - 1)| <= |c.tasks| <= |Slots(cfg, |c.groups|)|
    ensures !c.groups[|c.groups| - 1].started ==> |c.tasks| == |Slots(cfg, |c.groups| - 1)|
    ensures |c.tasks| == |Slots(cfg, |c.groups| - 1)| ==> LastDone(c.tasks)
  {
    hide Planned, Slots, TasksInOrder;
  }

  /** All its tasks done: it creates the next, or completes when there is none left. */
  lemma {:induction false} GroupMovesOn(cfg: Config, c: Cluster)
    requires SelectorsSingle(cfg) && Inv(cfg, c) && LastGroupWorks(cfg, c)
    requires !LastGroupDone(c) && c.groups[|c.groups| - 1].started && LastDone(c.tasks)
    requires |c.groups| <= |Planned(cfg)|
    requires |c.tasks| == |Slots(cfg, |c.groups|)| || (!c.operation.paused && DistinctTaskNames(cfg))
    ensures Done(Moved(cfg, c, MoveLastGroup(c))) > Done(c)
  {
    hide Planned, Borrowed, Finds, Listable, InvOf, Slots, NodesOf, TasksWork, GroupsWork, SelectorsSingle, Moved,
         FindTask, TypedMode, DistinctTaskNames, TaskName, NewTask, LastViews;
    var k := |c.groups|;
    LastSpec(cfg, c);
    LastGroupMove(cfg, c);
    RestSeen(cfg, c);
    var (g, create) := GroupStep(c.operation, c.groups[k - 1], LastViews(cfg, c));
    GroupsWorkUpdate(c.groups, k - 1, PhasedGroup(g));
    if create.Some? {
      NextNameFree(cfg, c);
      TasksWorkAppend(c.tasks, NewTask(c.groups[k - 1].spec, create.value, TypedMode(c.operation.mode)));
      NewTaskWork(c.groups[k - 1].spec, create.value, TypedMode(c.operation.mode));
    }
  }

  lemma LastDoneIsNotFailed(cfg: Config, c: Cluster)
    requires Inv(cfg, c) && LastDone(c.tasks)
    ensures c.tasks != [] ==> !IsFailed(c.tasks[|c.tasks| - 1])
  {
    hide TypedRecovery, InvOf;
    if c.tasks != [] { StoredTaskOk(cfg, c, |c.tasks| - 1); }
  }

  /** No two (group, node) pairs make the same task name. */
  ghost predicate DistinctTaskNames(cfg: Config)
  {
    var s := AllSlots(cfg);
    forall i, j :: 0 <= i < j < |s| ==> TaskName(s[i].spec.name, s[i].node) != TaskName(s[j].spec.name, s[j].node)
  }

  lemma {:induction false} NextNameFree(cfg: Config, c: Cluster)
    requires Inv(cfg, c) && DistinctTaskNames(cfg) && |c.groups| <= |Planned(cfg)|
        && |c.tasks| < |Slots(cfg, |c.groups|)|
    ensures var z := Slots(cfg, |c.groups|)[|c.tasks|]; FindTask(c.tasks, TaskName(z.spec.name, z.node)) == |c.tasks|
  {
    hide Planned, Slots, GroupsInOrder, LastGroup, TaskName, FindTask;
    var k, m := |c.groups|, |c.tasks|;
    SlotsPrefix(cfg, k, |Planned(cfg)|);
    var z := Slots(cfg, k)[m];
    forall f | 0 <= f < m ensures c.tasks[f].name != TaskName(z.spec.name, z.node) {
      assert Fits(c.tasks[f], Slots(cfg, k)[f]);
      assert AllSlots(cfg)[f] == Slots(cfg, k)[f] && AllSlots(cfg)[m] == z;
    }
  }

  predicate LastTaskOpen(c: Cluster) { c.tasks != [] && !c.tasks[|c.tasks| - 1].completed }

  predicate LastTaskRuns(c: Cluster) { LastTaskOpen(c) && !IsFailed(c.tasks[|c.tasks| - 1]) }

  predicate LastTaskFailed(c: Cluster) { LastTaskOpen(c) && IsFailed(c.tasks[|c.tasks| - 1]) }

  /** The last group, when a task is open, finds its own tasks exactly if it works. */
  lemma {:induction false} OpenTaskIsOwn(cfg: Config, c: Cluster)
    requires SelectorsSingle(cfg) && Inv(cfg, c) && !LastGroupDone(c) && LastTaskOpen(c)
    ensures var k := |c.groups|;
            && k <= |Planned(cfg)| && Listable(Planned(cfg)[k - 1]) && c.groups[k - 1].started
            && |Slots(cfg, k - 1)| < |c.tasks| <= |Slots(cfg, k)| && Made(cfg, k - 1) != []
            && (LastGroupWorks(cfg, c) <==> FindsOwn(Planned(cfg)[k - 1]))
  {
    hide Planned, InvOf, Finds, NodesOf, Borrowed, Slots, SelectorsSingle, Listable;
    LastSpec(cfg, c);
    NothingBeforeStart(cfg, c);
    SlotCount(cfg, |c.groups| - 1);
    if !FindsOwn(Planned(cfg)[|c.groups| - 1]) {
      NoneMissing(NodesOf(cfg, Planned(cfg)[|c.groups| - 1]), Borrowed(cfg, |c.groups| - 1));
    }
  }

  /** Only the last group can have changed, and nothing is done. */
  ghost predicate OnlyReports(c: Cluster, d: Cluster)
  {
    && d.operation == c.operation && d.tasks == c.tasks && d.daemonSet == c.daemonSet && Done(d) == Done(c)
    && |d.groups| == |c.groups| && !LastGroupDone(d)
  }

  /** A group that sees its task open has an error exactly if the task is failed. */
  lemma GroupHears(cfg: Config, c: Cluster)
    requires SelectorsSingle(cfg) && Inv(cfg, c) && LastGroupWorks(cfg, c) && !LastGroupDone(c) && LastTaskOpen(c)
    ensures var d := Moved(cfg, c, MoveLastGroup(c));
            OnlyReports(c, d) && (d.groups[|c.groups| - 1].error.Some? <==> LastTaskFailed(c))
  {
    hide Planned, Works, InvOf, Slots, NodesOf, TasksWork, GroupsWork, SelectorsSingle, Moved, FindTask, Made,
         TypedMode, IsFailed, Finds, Listable, LastViews;
    var k := |c.groups|;
    LastSpec(cfg, c);
    OpenTaskIsOwn(cfg, c);
    LastGroupMove(cfg, c);
    var list := OwnTasksSeen(cfg, c);
    var (g, create) := GroupStep(c.operation, c.groups[k - 1], LastViews(cfg, c));
    GroupsWorkUpdate(c.groups, k - 1, PhasedGroup(g));
  }

  /** A group that cannot see its task has no error, and cannot create the task again. */
  lemma GroupIsDeaf(cfg: Config, c: Cluster)
    requires SelectorsSingle(cfg) && Inv(cfg, c) && !LastGroupWorks(cfg, c) && !LastGroupDone(c) && LastTaskOpen(c)
    ensures var d := Moved(cfg, c, MoveLastGroup(c));
            OnlyReports(c, d) && d.groups[|c.groups| - 1].error.None?
  {
    hide Planned, Works, Listable, InvOf, Slots, NodesOf, TasksWork, GroupsWork, SelectorsSingle, FindTask, Finds,
         TypedMode, TaskName, GroupStep, SeesBorrowed, Moved, NewTask, Borrowed, LastViews, Fit, Missing;
    var k := |c.groups|;
    var g := c.groups[k - 1];
    LastSpec(cfg, c);
    OpenTaskIsOwn(cfg, c);
    DeafSlot(cfg, c);
    LastGroupMove(cfg, c);
    LentTasksSeen(cfg, c);
    LentDecides(c.operation, g, LastViews(cfg, c), NodesOf(cfg, g.spec), Borrowed(cfg, k - 1));
    var (g1, create) := GroupStep(c.operation, g, LastViews(cfg, c));
    GroupsWorkUpdate(c.groups, k - 1, g1);
    GroupsWorkUpdate(c.groups, k - 1, PhasedGroup(g1));
  }

  /** The one task that such a group ever makes is there, and it has no error and no way to complete. */
  lemma {:induction false} DeafSlot(cfg: Config, c: Cluster)
    requires SelectorsSingle(cfg) && Inv(cfg, c) && !LastGroupDone(c) && LastTaskOpen(c)
    requires |c.groups| <= |Planned(cfg)| && !FindsOwn(Planned(cfg)[|c.groups| - 1])
    ensures var p, b := Planned(cfg)[|c.groups| - 1], Borrowed(cfg, |c.groups| - 1);
            var missing := Missing(NodesOf(cfg, p), b);
            && c.groups[|c.groups| - 1].error.None? && Fit(b, NodesOf(cfg, p)) && b != NodesOf(cfg, p)
            && missing != [] && FindTask(c.tasks, TaskName(p.name, missing[0])) < |c.tasks|
  {
    hide Planned, InvOf, Slots, NodesOf, SelectorsSingle, FindTask, Finds, TaskName, Borrowed, Fit, Missing, Listable;
    var k := |c.groups|;
    OpenTaskIsOwn(cfg, c);
    LentSlots(cfg, k - 1);
    if c.groups[k - 1].error.Some? { ErrorIsPossible(cfg, c, k - 1); }
    NoneMissing(NodesOf(cfg, Planned(cfg)[k - 1]), Borrowed(cfg, k - 1));
    StoredName(cfg, c, |Slots(cfg, k - 1)|);
  }

  /**
   * One task open: the group is left with an error exactly if it works and the task is failed; nothing else happens.
   */
  lemma GroupWaits(cfg: Config, c: Cluster)
    requires SelectorsSingle(cfg) && Inv(cfg, c) && !LastGroupDone(c) && LastTaskOpen(c)
    ensures var d := Moved(cfg, c, MoveLastGroup(c));
            && OnlyReports(c, d)
            && (d.groups[|c.groups| - 1].error.Some? <==> LastGroupWorks(cfg, c) && LastTaskFailed(c))
  {
    hide InvOf, Moved, Done, LastGroupWorks, SelectorsSingle, IsFailed;
    if LastGroupWorks(cfg, c) { GroupHears(cfg, c); } else { GroupIsDeaf(cfg, c); }
  }

  // ---- recovery ----

  /** The group controller once and the operation controller twice. */
  function Relay(c: Cluster): seq<Move>
    requires c.groups != []
  {
    [MoveLastGroup(c), MoveOperation, MoveOperation]
  }

  /**
   * What one group reconcile and two operation reconciles tell of the open task: whether it is failed, in a group that
   * works. Then both errors are set and the agents are gone, and else both are cleared and the agents are there.
   */
  lemma {:induction false} RelayTells(cfg: Config, c: Cluster)
    requires SelectorsSingle(cfg) && Inv(cfg, c) && LastTaskOpen(c) && c.groups != []
    ensures var d := After(cfg, c, Relay(c));
            var stops := LastGroupWorks(cfg, c) && LastTaskFailed(c);
            && AllPossible(cfg, c, Relay(c)) && Inv(cfg, d)
            && d.tasks == c.tasks && |d.groups| == |c.groups| && !LastGroupDone(d) && Done(d) == Done(c)
            && (d.groups[|d.groups| - 1].error.Some? <==> stops) && (d.operation.error.Some? <==> stops)
            && (d.daemonSet <==> !stops)
            && d.operation.specPaused == c.operation.specPaused && d.operation.paused == c.operation.specPaused
            && d.operation.mode == c.operation.mode
  {
    hide Planned, Works, InvOf, Done, SelectorsSingle, Moved, After, AllPossible, IsFailed, Evolves, LastGroupWorks,
         LastTaskFailed;
    OnlyLastCanBeIncomplete(cfg, c);
    assert !c.tasks[|c.tasks| - 1].completed;
    GroupWaits(cfg, c);
    MovedKeeps(cfg, c, MoveLastGroup(c));
    var c1 := Moved(cfg, c, MoveLastGroup(c));
    OperationWaits(cfg, c1);
    MovedKeeps(cfg, c1, MoveOperation);
    var c2 := Moved(cfg, c1, MoveOperation);
    OperationWaits(cfg, c2);
    MovedKeeps(cfg, c2, MoveOperation);
    AfterNone(cfg, c);
    var m := MoveLastGroup(c);
    AfterOne(cfg, c, [], m);
    AfterOne(cfg, c, [m], MoveOperation);
    AfterOne(cfg, c, [m, MoveOperation], MoveOperation);
    assert [] + [m] == [m] && [m] + [MoveOperation] == [m, MoveOperation]
        && [m, MoveOperation] + [MoveOperation] == Relay(c);
  }

  /**
   * Recovery un-sticks the system: when the last task is failed and a known recovery has been chosen for it, or is in
   * any way able to go on, one group reconcile and two operation reconciles clear the errors above it and bring the
   * agents back.
   */
  lemma {:induction false} RecoveryUnsticks(cfg: Config, c: Cluster)
    requires SelectorsSingle(cfg) && Inv(cfg, c) && LastTaskRuns(c) && c.groups != []
    ensures var d := After(cfg, c, Relay(c));
            && AllPossible(cfg, c, Relay(c)) && Inv(cfg, d)
            && d.tasks == c.tasks && |d.groups| == |c.groups| && !LastGroupDone(d) && Done(d) == Done(c)
            && d.groups[|d.groups| - 1].error.None? && d.operation.error.None? && d.daemonSet
            && d.operation.specPaused == c.operation.specPaused && d.operation.paused == c.operation.specPaused
            && d.operation.mode == c.operation.mode
  {
    hide Planned, InvOf, Done, SelectorsSingle, After, AllPossible, IsFailed, LastGroupWorks, Relay;
    RelayTells(cfg, c);
  }

  /**
   * Failure stops the system: when the last task is failed, and the user has chosen nothing, one group reconcile and
   * two operation reconciles report the error and take all agents away, exactly if the group works. A group that does
   * not see its task reports nothing and the agents stay.
   */
  lemma {:induction false} FailureIsReported(cfg: Config, c: Cluster)
    requires SelectorsSingle(cfg) && Inv(cfg, c) && LastTaskFailed(c) && c.groups != []
    ensures var d := After(cfg, c, Relay(c));
            && AllPossible(cfg, c, Relay(c)) && d.tasks == c.tasks && |d.groups| == |c.groups|
            && (LastGroupWorks(cfg, c) ==>
                  d.groups[|d.groups| - 1].error.Some? && d.operation.error.Some? && !d.daemonSet)
            && (!LastGroupWorks(cfg, c) ==>
                  d.groups[|d.groups| - 1].error.None? && d.operation.error.None? && d.daemonSet)
  {
    hide Planned, InvOf, Done, SelectorsSingle, After, AllPossible, IsFailed, LastGroupWorks, Relay;
    RelayTells(cfg, c);
  }

  lemma {:induction false} AfterNone(cfg: Config, c: Cluster)
    ensures After(cfg, c, []) == c && AllPossible(cfg, c, [])
  {
  }

  // ---- completion ----

  /** The task reconcile of the last task: it moves on, unless it only takes back a failed command to retry it. */
  lemma TaskMovesOn(cfg: Config, c: Cluster)
    requires SelectorsSingle(cfg) && Inv(cfg, c) && LastTaskRuns(c) && !c.operation.paused
    requires TypedMode(c.operation.mode) == DryRun || c.tasks[|c.tasks| - 1].commands != []
    ensures var t := c.tasks[|c.tasks| - 1];
            var d := Moved(cfg, c, MoveTask(t.node, t.name));
            && d.operation == c.operation && d.groups == c.groups && d.daemonSet == c.daemonSet
                && |d.tasks| == |c.tasks|
            && (t.error.None? ==> Done(d) > Done(c))
            && (t.error.Some? ==> d.tasks[|c.tasks| - 1].error.None? && (Done(d) > Done(c) || LastTaskRuns(d)))
  {
    hide Planned, InvOf, TypedMode, TypedRecovery, TasksWork, GroupsWork, SelectorsSingle, TaskStep, RanBy,
         ResolvedBy, TaskWork;
    var n := |c.tasks| - 1;
    var t := c.tasks[n];
    LastTaskFound(cfg, c);
    StoredTaskOk(cfg, c, n);
    TaskStepWork(c.operation, t, true);
    TaskStepMoves(c.operation, t);
    TasksWorkUpdate(c.tasks, n, TaskStep(c.operation, t, true));
  }

  lemma LastTaskFound(cfg: Config, c: Cluster)
    requires Inv(cfg, c) && c.tasks != []
    ensures FindTask(c.tasks, c.tasks[|c.tasks| - 1].name) == |c.tasks| - 1
  {
    hide Planned, Slots, GroupsInOrder, LastGroup, FindTask, Fits, TaskOk;
    var f := FindTask(c.tasks, c.tasks[|c.tasks| - 1].name);
    assert !(|c.tasks| - 1 < f);
  }

  lemma TaskStepMoves(operation: OperationState, t: TaskState)
    requires TaskOk(t) && !t.completed && !IsFailed(t) && !operation.paused
    requires TypedMode(operation.mode) == DryRun || t.commands != []
    ensures var u := TaskStep(operation, t, true);
            && u.error.None?
            && (t.error.None? ==> TaskWork(u) > TaskWork(t))
            && (t.error.Some? ==> TaskWork(u) > TaskWork(t) || !u.completed)
  {
    hide TypedMode, TypedRecovery;
    if Recovers(t) {
    } else if !t.started {
    } else if t.cursor >= |t.commands| {
    } else {
    }
  }

  /**
   * Nothing stands in the way: not paused, no failed task, selectors work, task names distinct, commands to run or a
   * dry run.
   */
  ghost predicate Healthy(cfg: Config, c: Cluster)
  {
    && Inv(cfg, c) && !c.operation.specPaused && SelectorsWork(cfg) && DistinctTaskNames(cfg)
    && (forall j :: 0 <= j < |c.tasks| ==> !IsFailed(c.tasks[j]))
    && (TypedMode(c.operation.mode) == DryRun || CommandsEverywhere(cfg))
  }

  lemma HealthyTaskStep(operation: OperationState, t: TaskState)
    requires TaskOk(t) && !IsFailed(t) && (TypedMode(operation.mode) == DryRun || t.commands != [])
    ensures !IsFailed(TaskStep(operation, t, true))
  {
    hide TypedMode, TypedRecovery;
    if t.completed {
    } else if Recovers(t) {
    } else if operation.paused {
    } else if !t.started {
    } else {
    }
  }

  lemma HealthyStays(cfg: Config, c: Cluster, m: Move)
    requires SelectorsSingle(cfg) && Healthy(cfg, c)
    ensures Healthy(cfg, Moved(cfg, c, m))
  {
    hide Planned, Inv, TypedMode, SelectorsSingle, IsFailed, OperationReconciled, GroupReconciled, DistinctTaskNames,
         CommandsEverywhere, TaskStep, RanBy, ResolvedBy, FindTask, FindGroup, NewTask, Evolves, Done;
    MovedKeeps(cfg, c, m);
    ModeStays(cfg, c, Fresh(c, m));
    match m
    case MoveOperation =>
      OperationFrame(cfg, c, c.groups, NO_FAULT);
      SpecPauseStays(cfg, c, c.groups, NO_FAULT);
    case MoveGroup(name) =>
      var i := FindGroup(c.groups, name);
      if i < |c.groups| {
        GroupFrame(cfg, c, i, c.operation, c.tasks, NO_FAULT);
        var d := GroupReconciled(cfg, c, i, c.operation, c.tasks, NO_FAULT);
        if d.tasks != c.tasks {
          var s, n, mode :| d.tasks == c.tasks + [NewTask(s, n, mode)];
          NewTaskHealthy(s, n, mode);
        }
      }
    case MoveTask(agent, name) =>
      var i := FindTask(c.tasks, name);
      if i < |c.tasks| {
        StoredTaskOk(cfg, c, i);
        if TypedMode(c.operation.mode) != DryRun { StoredCommands(cfg, c); }
        HealthyTaskStep(c.operation, c.tasks[i]);
      }
  }

  lemma NewTaskHealthy(spec: GroupSpec, node: string, mode: Mode)
    ensures !IsFailed(NewTask(spec, node, mode))
  {
  }

  lemma SpecPauseStays(cfg: Config, c: Cluster, groups: seq<GroupState>, fault: Fault)
    ensures OperationReconciled(cfg, c, groups, fault).operation.specPaused == c.operation.specPaused
  {
    hide GroupViews, GroupRefused;
    var o := c.operation.(paused := c.operation.specPaused);
    var w := GroupViews(cfg.desired, groups);
    NormalSpecPauseStays(w, o.(counters := w.Counters()));
  }

  lemma NormalSpecPauseStays(w: Views<GroupItem>, o: OperationState)
    ensures OperationNormal(w, o).0.specPaused == o.specPaused
  {
  }

  lemma {:induction false} AfterHealthy(cfg: Config, c: Cluster, moves: seq<Move>)
    requires SelectorsSingle(cfg) && Healthy(cfg, c)
    ensures Healthy(cfg, After(cfg, c, moves))
  {
    hide Healthy, Moved, SelectorsSingle;
    if moves != [] {
      AfterHealthy(cfg, c, moves[..|moves| - 1]);
      HealthyStays(cfg, After(cfg, c, moves[..|moves| - 1]), moves[|moves| - 1]);
    }
  }

  lemma {:induction false} AfterConcat(cfg: Config, c: Cluster, a: seq<Move>, b: seq<Move>)
    ensures After(cfg, c, a + b) == After(cfg, After(cfg, c, a), b)
    ensures AllPossible(cfg, c, a + b) <==> AllPossible(cfg, c, a) && AllPossible(cfg, After(cfg, c, a), b)
  {
    hide Moved, Possible;
    if b == [] {
      assert a + b == a;
    } else {
      var b1, z := b[..|b| - 1], b[|b| - 1];
      AfterConcat(cfg, c, a, b1);
      assert a + b == (a + b1) + [z] && b == b1 + [z];
      AfterOne(cfg, c, a + b1, z);
      AfterOne(cfg, After(cfg, c, a), b1, z);
    }
  }

  /** From a healthy state that is not completed some possible moves get work done. */
  lemma Advance(cfg: Config, c: Cluster) returns (moves: seq<Move>)
    requires SelectorsSingle(cfg) && Healthy(cfg, c) && !c.operation.completed
    ensures AllPossible(cfg, c, moves) && Done(After(cfg, c, moves)) > Done(c)
  {
    hide Planned, InvOf, Done, SelectorsSingle, SelectorsWork, Works, Moved, DistinctTaskNames, CommandsEverywhere,
         TypedMode, IsFailed, LastTaskRuns, Slots, After, AllPossible, Evolves;
    AfterNone(cfg, c);
    if LastGroupDone(c) {
      OperationMovesOn(cfg, c);
      moves := [] + [MoveOperation];
      AfterOne(cfg, c, [], MoveOperation);
    } else {
      NothingBeforeStart(cfg, c);
      LastWorks(cfg, c);
      var m := MoveLastGroup(c);
      if !c.groups[|c.groups| - 1].started {
        GroupStarts(cfg, c);
        moves := [] + [m];
        AfterOne(cfg, c, [], m);
      } else if LastDone(c.tasks) {
        moves := AdvanceGroup(cfg, c);
      } else {
        moves := AdvanceTask(cfg, c);
      }
    }
  }

  /** All tasks done: the operation controller takes note that there is no pause, then the group controller moves on. */
  lemma AdvanceGroup(cfg: Config, c: Cluster) returns (moves: seq<Move>)
    requires SelectorsSingle(cfg) && Healthy(cfg, c) && !LastGroupDone(c) && c.groups[|c.groups| - 1].started
        && LastDone(c.tasks)
    ensures AllPossible(cfg, c, moves) && Done(After(cfg, c, moves)) > Done(c)
  {
    hide Planned, InvOf, Done, SelectorsSingle, SelectorsWork, Works, Moved, DistinctTaskNames, CommandsEverywhere,
         TypedMode, IsFailed, Slots, After, AllPossible, Evolves;
    AfterNone(cfg, c);
    OperationWaits(cfg, c);
    MovedKeeps(cfg, c, MoveOperation);
    var c1 := Moved(cfg, c, MoveOperation);
    NothingBeforeStart(cfg, c1);
    LastWorks(cfg, c1);
    GroupMovesOn(cfg, c1);
    var m := MoveLastGroup(c1);
    AfterOne(cfg, c, [], MoveOperation);
    AfterOne(cfg, c, [] + [MoveOperation], m);
    moves := [] + [MoveOperation] + [m];
  }

  /** A task to run: relay, then the task controller, once more if the first time only took back a failed command. */
  lemma AdvanceTask(cfg: Config, c: Cluster) returns (moves: seq<Move>)
    requires SelectorsSingle(cfg) && Healthy(cfg, c) && !LastGroupDone(c) && !LastDone(c.tasks)
    ensures AllPossible(cfg, c, moves) && Done(After(cfg, c, moves)) > Done(c)
  {
    hide Planned, InvOf, Done, SelectorsSingle, SelectorsWork, Works, Moved, DistinctTaskNames, CommandsEverywhere,
         TypedMode, IsFailed, Slots, After, AllPossible, Evolves, Relay;
    assert LastTaskRuns(c);
    LastWorks(cfg, c);
    RecoveryUnsticks(cfg, c);
    var relay := Relay(c);
    var d := After(cfg, c, relay);
    var n := |c.tasks| - 1;
    if TypedMode(c.operation.mode) != DryRun { StoredCommands(cfg, c); }
    TaskMovesOn(cfg, d);
    var m := MoveTask(c.tasks[n].node, c.tasks[n].name);
    AfterOne(cfg, c, relay, m);
    moves := relay + [m];
    MovedKeeps(cfg, d, m);
    var e := Moved(cfg, d, m);
    if Done(e) == Done(c) {
      assert SameTask(d.tasks[n], e.tasks[n]) by { SameStays(d, e, n); }
      TaskMovesOn(cfg, e);
      var z := MoveTask(e.tasks[n].node, e.tasks[n].name);
      AfterOne(cfg, c, moves, z);
      moves := moves + [z];
    }
  }

  lemma SameStays(a: Cluster, b: Cluster, n: nat)
    requires Evolves(a, b) && n < |a.tasks|
    ensures n < |b.tasks| && SameTask(a.tasks[n], b.tasks[n])
  {
    assert TaskEvolves(a.tasks[n], b.tasks[n]);
  }

  /** From every healthy state undisturbed controllers can complete the operation. */
  lemma {:induction false} CompletionIsReachable(cfg: Config, c: Cluster) returns (moves: seq<Move>)
    requires SelectorsSingle(cfg) && Healthy(cfg, c)
    ensures AllPossible(cfg, c, moves) && After(cfg, c, moves).operation.completed
    decreases Total(cfg) - Done(c)
  {
    hide Planned, InvOf, Done, SelectorsSingle, After, AllPossible, DistinctTaskNames, CommandsEverywhere, TypedMode,
         IsFailed, Total;
    AfterNone(cfg, c);
    if c.operation.completed {
      moves := [];
    } else {
      var first := Advance(cfg, c);
      var d := After(cfg, c, first);
      AfterHealthy(cfg, c, first);
      AllWorkDone(cfg, d);
      var rest := CompletionIsReachable(cfg, d);
      AfterConcat(cfg, c, first, rest);
      moves := first + rest;
    }
  }

  // ---- exactly when ----

  /** Undisturbed controllers can take the operation from `c` to completion. */
  ghost predicate Completable(cfg: Config, c: Cluster)
  {
    exists moves :: AllPossible(cfg, c, moves) && After(cfg, c, moves).operation.completed
  }

  /** Without the user no recovery is chosen, and then a task without commands is never completed outside dry run. */
  ghost predicate Untouched(c: Cluster)
  {
    forall j :: 0 <= j < |c.tasks| ==>
      c.tasks[j].recovery == ""
      && (TypedMode(c.operation.mode) != DryRun && c.tasks[j].commands == [] ==> !c.tasks[j].completed)
  }

  lemma UntouchedTask(operation: OperationState, t: TaskState)
    requires TaskOk(t) && t.recovery == "" && (TypedMode(operation.mode) != DryRun && t.commands == [] ==> !t.completed)
    ensures var u := TaskStep(operation, t, true);
            u.recovery == "" && (TypedMode(operation.mode) != DryRun && u.commands == [] ==> !u.completed)
  {
    hide TypedMode, TypedRecovery;
    assert TypedRecovery("") == UnknownStrategy by { NoRecovery(); }
    if t.completed {
    } else if operation.paused {
    } else if !t.started {
    } else {
    }
  }

  lemma NoRecovery()
    ensures TypedRecovery("") == UnknownStrategy
  {
  }

  lemma UntouchedStays(cfg: Config, c: Cluster, m: Move)
    requires SelectorsSingle(cfg) && Inv(cfg, c) && Untouched(c)
    ensures Untouched(Moved(cfg, c, m))
  {
    hide Planned, Inv, TypedMode, SelectorsSingle, OperationReconciled, GroupReconciled, TaskStep, RanBy, ResolvedBy,
         FindTask, FindGroup, NewTask;
    ModeStays(cfg, c, Fresh(c, m));
    match m
    case MoveOperation => OperationFrame(cfg, c, c.groups, NO_FAULT);
    case MoveGroup(name) =>
      var i := FindGroup(c.groups, name);
      if i < |c.groups| {
        GroupFrame(cfg, c, i, c.operation, c.tasks, NO_FAULT);
        var d := GroupReconciled(cfg, c, i, c.operation, c.tasks, NO_FAULT);
        if d.tasks != c.tasks {
          var s, n, mode :| d.tasks == c.tasks + [NewTask(s, n, mode)];
          NewTaskUntouched(s, n, mode);
        }
      }
    case MoveTask(agent, name) =>
      var i := FindTask(c.tasks, name);
      if i < |c.tasks| {
        StoredTaskOk(cfg, c, i);
        UntouchedTask(c.operation, c.tasks[i]);
      }
  }

  lemma NewTaskUntouched(spec: GroupSpec, node: string, mode: Mode)
    ensures NewTask(spec, node, mode).recovery == "" && !NewTask(spec, node, mode).completed
  {
  }

  lemma {:induction false} AfterUntouched(cfg: Config, c: Cluster, moves: seq<Move>)
    requires SelectorsSingle(cfg) && Inv(cfg, c) && Untouched(c)
    ensures Inv(cfg, After(cfg, c, moves)) && Untouched(After(cfg, c, moves))
    ensures After(cfg, c, moves).operation.mode == c.operation.mode
  {
    hide Inv, Untouched, SelectorsSingle, Evolves, Done, Next;
    if moves != [] {
      var d, m := After(cfg, c, moves[..|moves| - 1]), moves[|moves| - 1];
      AfterUntouched(cfg, c, moves[..|moves| - 1]);
      MovedKeeps(cfg, d, m);
      UntouchedStays(cfg, d, m);
      ModeStays(cfg, d, Fresh(d, m));
    }
  }

  lemma CompletedNames(cfg: Config, c: Cluster)
    requires Inv(cfg, c) && c.operation.completed
    ensures DistinctTaskNames(cfg)
  {
    hide Planned, Slots, TaskName, LastGroup, TaskOk;
    CompletedIsDone(cfg, c);
    var s := AllSlots(cfg);
    forall i, j | 0 <= i < j < |s| ensures TaskName(s[i].spec.name, s[i].node) != TaskName(s[j].spec.name, s[j].node) {
      assert Fits(c.tasks[i], s[i]) && Fits(c.tasks[j], s[j]);
      assert c.tasks[i].name != c.tasks[j].name;
    }
  }

  lemma CompletedSelectors(cfg: Config, c: Cluster)
    requires Inv(cfg, c) && c.operation.completed
    ensures SelectorsWork(cfg)
  {
    hide Planned, Slots, LastGroup, TasksInOrder, Works, MayFail;
    CompletedIsDone(cfg, c);
    forall i | 0 <= i < |Planned(cfg)| ensures Works(cfg, i) { assert c.groups[i].completed; }
  }

  lemma CompletedCommands(cfg: Config, c: Cluster)
    requires Inv(cfg, c) && c.operation.completed && Untouched(c) && TypedMode(c.operation.mode) != DryRun
    ensures CommandsEverywhere(cfg)
  {
    hide Planned, InvOf, Slots, TaskName, TypedMode;
    CompletedIsDone(cfg, c);
    forall s | s in AllSlots(cfg) ensures s.spec.commands != [] {
      var j :| 0 <= j < |AllSlots(cfg)| && AllSlots(cfg)[j] == s;
      assert Fits(c.tasks[j], AllSlots(cfg)[j]) && c.tasks[j].completed;
    }
  }

  /**
   * An operation that is not paused completes on its own exactly when its groups' selectors work, no two of its tasks
   * would get one name and, outside dry run, every task has a command to run.
   */
  lemma CompletesExactly(cfg: Config, c: Cluster)
    requires SelectorsSingle(cfg) && Initial(c) && !c.operation.specPaused
    ensures Completable(cfg, c) <==>
              SelectorsWork(cfg) && DistinctTaskNames(cfg)
                && (TypedMode(c.operation.mode) == DryRun || CommandsEverywhere(cfg))
  {
    hide Planned, InvOf, SelectorsSingle, After, AllPossible, DistinctTaskNames, CommandsEverywhere, TypedMode;
    InitialInv(cfg, c);
    if SelectorsWork(cfg) && DistinctTaskNames(cfg)
      && (TypedMode(c.operation.mode) == DryRun || CommandsEverywhere(cfg)) {
      assert Healthy(cfg, c);
      var moves := CompletionIsReachable(cfg, c);
    }
    if Completable(cfg, c) {
      var moves :| AllPossible(cfg, c, moves) && After(cfg, c, moves).operation.completed;
      AfterUntouched(cfg, c, moves);
      CompletedNames(cfg, After(cfg, c, moves));
      CompletedSelectors(cfg, After(cfg, c, moves));
      if TypedMode(c.operation.mode) != DryRun { CompletedCommands(cfg, After(cfg, c, moves)); }
    }
  }
}
