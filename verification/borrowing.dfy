/** Plans in which a group does not find its own tasks: what they make of the program that was asked for. */
module Borrowing {
  import opened Names
  import opened Api
  import opened Matching
  import opened Machine
  import opened Schedule
  import opened Safety
  import opened Guarantees
  import opened Modes
  import opened Progress
  import opened Liveness
  import opened Plans
  import opened Selectors
  import opened Workflows
  import opened Reach

  // ---- the program that was asked for ----

  /** The (group, node) pairs of the first `k` planned groups with all their nodes, in order. */
  function AskedSlots(cfg: Config, k: nat): seq<Slot>
    requires k <= |Planned(cfg)|
  {
    if k == 0 then [] else AskedSlots(cfg, k - 1) + SlotsOn(Planned(cfg)[k - 1], NodesOf(cfg, Planned(cfg)[k - 1]))
  }

  /** Every planned group on every one of its nodes. */
  function AskedProgram(cfg: Config): seq<CommandRef> { Program(AskedSlots(cfg, |Planned(cfg)|)) }

  /**
   * A group makes a task on each of its nodes exactly if it has no nodes, or it can list and finds its own tasks, or
   * finds none and has one node only.
   */
  lemma {:induction false} MadeExactly(cfg: Config, i: nat)
    requires i < |Planned(cfg)|
    ensures var p := Planned(cfg)[i];
            var ns := NodesOf(cfg, p);
            Made(cfg, i) == ns <==>
              ns == [] || (Listable(p) && (FindsOwn(p) || (|ns| == 1 && Borrowed(cfg, i) == [])))
  {
    hide Planned, NodesOf, Listable, Finds, Borrowed;
    var p, b := Planned(cfg)[i], Borrowed(cfg, i);
    var ns := NodesOf(cfg, p);
    if Listable(p) && !FindsOwn(p) && Fit(b, ns) {
      NoneMissing(ns, b);
      if b == [] { MissingAll(ns); }
      if |ns| == 1 && b != [] { NothingMissing(ns, b); }
    }
  }

  lemma {:induction false} MissingAll(ns: seq<string>)
    ensures Missing(ns, []) == ns
  {
    if ns != [] { MissingAll(ns[1..]); }
  }

  lemma {:induction false} NothingMissing(ns: seq<string>, b: seq<string>)
    requires |ns| == 1 && b != [] && Fit(b, ns)
    ensures Missing(ns, b) == []
  {
    assert b[0] in ns && ns[0] in b;
  }

  lemma {:induction false} FewerMade(cfg: Config, i: nat)
    requires i < |Planned(cfg)|
    ensures var ns := NodesOf(cfg, Planned(cfg)[i]);
            |Made(cfg, i)| <= |ns| && (|Made(cfg, i)| == |ns| <==> Made(cfg, i) == ns)
  {
    hide Planned, NodesOf, Listable, Finds, Borrowed;
    var ns, m := NodesOf(cfg, Planned(cfg)[i]), Made(cfg, i);
    if m != [] { assert m[0] in ns; }
    if |m| == 1 && |ns| == 1 { assert m[0] == ns[0]; }
  }

  lemma {:induction false} ProgramConcat(a: seq<Slot>, b: seq<Slot>)
    ensures Program(a + b) == Program(a) + Program(b)
  {
    hide Commands;
    if b == [] {
      assert a + b == a;
    } else {
      ProgramConcat(a, b[..|b| - 1]);
      assert (a + b)[..|a + b| - 1] == a + b[..|b| - 1];
    }
  }

  lemma {:induction false} ProgramLength(spec: GroupSpec, ns: seq<string>)
    ensures |Program(SlotsOn(spec, ns))| == |ns| * |spec.commands|
  {
    if ns != [] {
      var n := |ns| - 1;
      ProgramLength(spec, ns[..n]);
      assert SlotsOn(spec, ns)[..n] == SlotsOn(spec, ns[..n]);
      Distributes(n, |spec.commands|);
    }
  }

  lemma {:induction false} Shorter(m: nat, n: nat, c: nat)
    requires m <= n
    ensures m * c <= n * c && (m * c == n * c <==> m == n || c == 0)
  {
    if m < n {
      Shorter(m, n - 1, c);
      Distributes(n - 1, c);
    }
  }

  /** Nothing to do in the group, or a task for it on each of its nodes. */
  predicate AllMade(cfg: Config, i: nat)
    requires i < |Planned(cfg)|
  {
    Planned(cfg)[i].commands == [] || Made(cfg, i) == NodesOf(cfg, Planned(cfg)[i])
  }

  lemma GroupProgram(cfg: Config, i: nat)
    requires i < |Planned(cfg)|
    ensures var p := Planned(cfg)[i];
            var made, asked := Program(SlotsOf(cfg, i)), Program(SlotsOn(p, NodesOf(cfg, p)));
            |made| <= |asked| && (|made| == |asked| ==> AllMade(cfg, i)) && (AllMade(cfg, i) ==> made == asked)
  {
    hide Planned, NodesOf, Made, SlotsOn;
    var p := Planned(cfg)[i];
    FewerMade(cfg, i);
    ProgramLength(p, Made(cfg, i));
    ProgramLength(p, NodesOf(cfg, p));
    Shorter(|Made(cfg, i)|, |NodesOf(cfg, p)|, |p.commands|);
  }

  lemma {:induction false} ProgramUpTo(cfg: Config, k: nat)
    requires k <= |Planned(cfg)|
    ensures var made, asked := Program(Slots(cfg, k)), Program(AskedSlots(cfg, k));
            && |made| <= |asked|
            && (|made| == |asked| ==> forall i :: 0 <= i < k ==> AllMade(cfg, i))
            && ((forall i :: 0 <= i < k ==> AllMade(cfg, i)) ==> made == asked)
  {
    hide Planned, NodesOf, AllMade, SlotsOf, SlotsOn, Program;
    if k > 0 {
      var p := Planned(cfg)[k - 1];
      ProgramUpTo(cfg, k - 1);
      GroupProgram(cfg, k - 1);
      ProgramConcat(Slots(cfg, k - 1), SlotsOf(cfg, k - 1));
      ProgramConcat(AskedSlots(cfg, k - 1), SlotsOn(p, NodesOf(cfg, p)));
    }
  }

  /** The group has nothing to do, or it can list and finds its own tasks, or finds none and has one node only. */
  predicate DoesAll(cfg: Config, i: nat)
    requires i < |Planned(cfg)|
  {
    var p := Planned(cfg)[i];
    var ns := NodesOf(cfg, p);
    p.commands == [] || ns == [] || (Listable(p) && (FindsOwn(p) || (|ns| == 1 && Borrowed(cfg, i) == [])))
  }

  /** The program that runs follow is the one that was asked for exactly if every group does all of it. */
  lemma ProgramExactly(cfg: Config)
    ensures Program(AllSlots(cfg)) == AskedProgram(cfg) <==> forall i :: 0 <= i < |Planned(cfg)| ==> DoesAll(cfg, i)
  {
    hide Planned, NodesOf, Listable, Finds, Borrowed, Made, Slots, AskedSlots, Program;
    ProgramUpTo(cfg, |Planned(cfg)|);
    forall i | 0 <= i < |Planned(cfg)| ensures AllMade(cfg, i) <==> DoesAll(cfg, i) { MadeExactly(cfg, i); }
  }

  /** Every group that has something to do finds its own tasks. */
  ghost predicate AllFindOwn(cfg: Config)
  {
    forall p <- Planned(cfg) :: p.commands == [] || NodesOf(cfg, p) == [] || FindsOwn(p)
  }

  lemma WorkingDoesAll(cfg: Config, i: nat)
    requires i < |Planned(cfg)| && Works(cfg, i)
    ensures var p := Planned(cfg)[i];
            DoesAll(cfg, i) <==> p.commands == [] || NodesOf(cfg, p) == [] || FindsOwn(p)
  {
    hide Planned, NodesOf, Listable, Finds, Borrowed;
  }

  /**
   * A completed operation has left behind what was asked for exactly if every group that has something to do finds its
   * own tasks.
   */
  lemma CompletedDoesAsked(cfg: Config, states: seq<Cluster>, events: seq<Event>, i: nat)
    requires ProperRun(cfg, states, events) && i <= |events| && states[i].operation.completed
    ensures states[i].resolved == AskedProgram(cfg) <==> AllFindOwn(cfg)
  {
    hide Planned, NodesOf, Listable, Finds, Borrowed, Made, Next, Inv, Reads, ReadsInTime, SelectorsSingle, Evolves,
         Works, Program, AllSlots, AskedSlots, DoesAll;
    RunKeeps(cfg, states, events);
    CompletedSelectors(cfg, states[i]);
    RunFollowsProgram(cfg, states, events, i);
    ProgramExactly(cfg);
    var p := Planned(cfg);
    forall k | 0 <= k < |p|
      ensures DoesAll(cfg, k) <==> p[k].commands == [] || NodesOf(cfg, p[k]) == [] || FindsOwn(p[k])
    {
      WorkingDoesAll(cfg, k);
    }
    if AllFindOwn(cfg) {
      forall k | 0 <= k < |p| ensures DoesAll(cfg, k) { assert p[k] in p; }
    }
    if forall k :: 0 <= k < |p| ==> DoesAll(cfg, k) {
      forall q | q in p ensures q.commands == [] || NodesOf(cfg, q) == [] || FindsOwn(q) {
        var k :| 0 <= k < |p| && p[k] == q;
        assert DoesAll(cfg, k);
      }
    }
  }

  // ---- where a run stops ----

  /** How many flags there are up to and including the first that is not set. */
  function UpToFirstNot(flags: seq<bool>): (r: nat)
    ensures r <= |flags| && forall i :: 0 <= i < r - 1 ==> flags[i]
    ensures r < |flags| ==> r > 0 && !flags[r - 1]
  {
    if flags == [] then 0 else if !flags[0] then 1 else 1 + UpToFirstNot(flags[1..])
  }

  function WorkFlags(cfg: Config): (flags: seq<bool>)
    ensures |flags| == |Planned(cfg)| && forall i :: 0 <= i < |flags| ==> flags[i] == Works(cfg, i)
  {
    seq(|Planned(cfg)|, i requires 0 <= i < |Planned(cfg)| => Works(cfg, i))
  }

  /** How many groups a run can come to: up to and including the first that does not work. */
  function Reached(cfg: Config): (r: nat)
    ensures r <= |Planned(cfg)|
  {
    UpToFirstNot(WorkFlags(cfg))
  }

  lemma ReachedWorks(cfg: Config)
    ensures var r := Reached(cfg);
            (forall i :: 0 <= i < r - 1 ==> Works(cfg, i)) && (r < |Planned(cfg)| ==> r > 0 && !Works(cfg, r - 1))
  {
    hide Planned, Works, WorkFlags;
  }

  /**
   * A run never gets past the first group that does not work: the commands left behind are a prefix of the program of
   * the groups up to that one.
   */
  lemma {:induction false} RunStopsAt(cfg: Config, states: seq<Cluster>, events: seq<Event>, i: nat)
    requires ProperRun(cfg, states, events) && i <= |events|
    ensures var r := Reached(cfg);
            && |states[i].groups| <= r && |states[i].tasks| <= |Slots(cfg, r)|
            && states[i].resolved <= Program(Slots(cfg, r))
  {
    hide Planned, Slots, Program, History, Next, SelectorsSingle, Reads, ReadsInTime, TasksInOrder, GroupsInOrder,
         Evolves, Works;
    RunKeeps(cfg, states, events);
    RunHistory(cfg, states, events);
    var c, k := states[i], |states[i].groups|;
    GroupsReached(cfg, c);
    var r := Reached(cfg);
    HistoryFollows(Slots(cfg, k), c.tasks);
    SlotsPrefix(cfg, k, r);
    ProgramPrefix(Slots(cfg, k), Slots(cfg, r));
    assert |c.tasks| <= |Slots(cfg, k)| by { TasksFit(cfg, c); }
  }

  lemma {:induction false} TasksFit(cfg: Config, c: Cluster)
    requires Inv(cfg, c)
    ensures |c.groups| <= |Planned(cfg)| && |c.tasks| <= |Slots(cfg, |c.groups|)|
  {
    hide Planned, Slots, LastGroup, Works, MayFail;
  }

  lemma GroupsReached(cfg: Config, c: Cluster)
    requires Inv(cfg, c)
    ensures |c.groups| <= Reached(cfg)
  {
    hide Planned, Slots, TasksInOrder, LastGroup, Works, MayFail;
    ReachedWorks(cfg);
    var r := Reached(cfg);
    forall i | 0 <= i < |c.groups| - 1 ensures Works(cfg, i) { assert c.groups[i].completed; }
  }

  /** The last group takes tasks for its own that are on nodes which are not its own. */
  predicate FindsStrangers(cfg: Config, c: Cluster)
  {
    0 < |c.groups| <= |Planned(cfg)| &&
      var p := Planned(cfg)[|c.groups| - 1];
      Listable(p) && !FindsOwn(p) && !Fit(Borrowed(cfg, |c.groups| - 1), NodesOf(cfg, p))
  }

  lemma {:induction false} StrangersBlock(cfg: Config, c: Cluster)
    requires Inv(cfg, c) && FindsStrangers(cfg, c)
    ensures !LastGroupDone(c) && |c.tasks| == |Slots(cfg, |c.groups| - 1)| == |Slots(cfg, |c.groups|)|
  {
    hide Planned, Slots, TasksInOrder, NodesOf, Listable, Finds, Borrowed, MayFail;
    Bounds(cfg, c);
    SlotCount(cfg, |c.groups| - 1);
  }

  /** Such a group says so in its next reconcile. */
  lemma StrangersAreReported(cfg: Config, c: Cluster)
    requires SelectorsSingle(cfg) && Inv(cfg, c) && FindsStrangers(cfg, c)
    ensures var d := Moved(cfg, c, MoveLastGroup(c));
            |d.groups| == |c.groups| && d.groups[|c.groups| - 1].error == Some(ReconciliationError)
  {
    hide Planned, InvOf, NodesOf, Listable, Finds, Borrowed, SelectorsSingle, Moved, LastViews, Fit, TypedMode;
    StrangersBlock(cfg, c);
    LastSpec(cfg, c);
    LastGroupMove(cfg, c);
    LentTasksSeen(cfg, c);
  }

  lemma StrangersDecide(operation: OperationState, g: GroupState, w: Views<TaskItem>, ns: seq<string>, b: seq<string>)
    requires SeesBorrowed(w, ns, b) && !Fit(b, ns)
    ensures GroupStep(operation, g, w).0.error.Some? && GroupStep(operation, g, w).1.None?
  {
    hide Fit;
  }

  lemma GroupErrorStays(
      cfg: Config, h: Cluster, c: Cluster, i: nat, operation: OperationState, fault: Fault)
    requires SelectorsSingle(cfg) && Inv(cfg, h) && Inv(cfg, c) && Evolves(h, c) && FindsStrangers(cfg, c)
    requires i < |c.groups| && LenderDone(cfg, h.groups, i) && c.groups[|c.groups| - 1].error.Some?
    ensures var d := GroupReconciled(cfg, c, i, operation, h.tasks, fault);
            |d.groups| == |c.groups| && d.groups[|c.groups| - 1].error.Some?
  {
    hide Planned, InvOf, NodesOf, Listable, Finds, Borrowed, SelectorsSingle, Fit, TypedMode, GroupStep, TaskViews,
         DesiredNodes, TasksOf, Evolves, LenderDone, SeesBorrowed, TaskRefused, NewTask;
    LastSpec(cfg, c);
    LaterGroups(cfg, h, c);
    var k, g := |c.groups|, c.groups[|c.groups| - 1];
    if i == k - 1 {
      var w := GroupSeesLent(cfg, h, i);
      StrangersDecide(operation, g, w, NodesOf(cfg, g.spec), Borrowed(cfg, i));
    }
  }

  lemma StepErrorStays(cfg: Config, h: Cluster, c: Cluster, e: Event)
    requires SelectorsSingle(cfg) && Inv(cfg, h) && Inv(cfg, c) && Evolves(h, c) && FindsStrangers(cfg, c)
    requires ReadsListOf(h, e) && Timely(cfg, c, h, e) && c.groups[|c.groups| - 1].error.Some?
    ensures var d := Next(cfg, c, e);
            |d.groups| >= |c.groups| && d.groups[|c.groups| - 1].error.Some?
  {
    hide Planned, InvOf, SelectorsSingle, OperationReconciled, GroupReconciled, Evolves, FindGroup, FindTask, TaskStep,
         RanBy, ResolvedBy, LenderDone, FindsStrangers;
    LastSpec(cfg, c);
    match e
    case ReconcileOperation(groups, fault) => OperationFrame(cfg, c, groups, fault);
    case ReconcileGroup(name, operation, tasks, fault) =>
      var i := FindGroup(c.groups, name);
      if i < |c.groups| { GroupErrorStays(cfg, h, c, i, operation, fault); }
    case ReconcileTask(_, _, _, _, _) =>
    case SetPaused(_) =>
    case SetRecovery(_, _) =>
  }

  /** And it stays at that for ever: the error is never cleared and nothing is created any more. */
  lemma {:induction false} RunStaysWithStrangers(
      cfg: Config, states: seq<Cluster>, events: seq<Event>, i: nat, j: nat)
    requires ProperRun(cfg, states, events) && i <= j <= |events|
    requires FindsStrangers(cfg, states[i]) && states[i].groups[|states[i].groups| - 1].error.Some?
    ensures |states[j].groups| == |states[i].groups| && |states[j].tasks| == |states[i].tasks|
    ensures states[j].groups[|states[i].groups| - 1].error.Some?
    decreases j
  {
    hide Planned, InvOf, Next, SelectorsSingle, Reads, ReadsInTime, Initial, Evolves, Slots, Timely, ReadsListOf, Finds,
         NodesOf, Borrowed, Listable, Fit;
    RunKeeps(cfg, states, events);
    if i < j {
      RunStaysWithStrangers(cfg, states, events, i, j - 1);
      var c := states[j - 1];
      var m := ReadInTime(cfg, states[..j], c, events[j - 1]);
      StepErrorStays(cfg, states[m], c, events[j - 1]);
      StepFrame(cfg, states[m], c, events[j - 1]);
      StrangersBlock(cfg, c);
      StrangersBlock(cfg, states[j]);
    }
  }

  /** While the last group is not completed there is no next one. */
  lemma StepFrame(cfg: Config, h: Cluster, c: Cluster, e: Event)
    requires SelectorsSingle(cfg) && Inv(cfg, h) && Inv(cfg, c) && Evolves(h, c) && FindsStrangers(cfg, c)
    requires ReadsListOf(h, e) && Timely(cfg, c, h, e) && c.groups[|c.groups| - 1].error.Some?
    ensures |Next(cfg, c, e).groups| == |c.groups|
  {
    hide Planned, InvOf, Next, SelectorsSingle, Evolves, Timely, ReadsListOf, Listable, Finds, NodesOf, Borrowed, Fit;
    var d := Next(cfg, c, e);
    StepKeeps(cfg, h, c, e);
    StepErrorStays(cfg, h, c, e);
    CompletedHasNoError(cfg, d, |c.groups| - 1);
    OnlyLastCanBeIncomplete(cfg, d);
  }

  lemma CompletedHasNoError(cfg: Config, c: Cluster, i: nat)
    requires Inv(cfg, c) && i < |c.groups| && c.groups[i].error.Some?
    ensures !c.groups[i].completed
  {
    hide Planned, Slots, TasksInOrder, LastGroup, Works, MayFail;
  }

  // ---- plans that complete with less done than was asked for ----

  /**
   * Whenever an operation can complete on its own and one of its groups that has something to do does not find its own
   * tasks, there is a run that completes it with commands never left behind.
   */
  lemma BorrowersSkipCommands(cfg: Config, c: Cluster) returns (states: seq<Cluster>, events: seq<Event>)
    requires SelectorsSingle(cfg) && Initial(c) && Completable(cfg, c) && !AllFindOwn(cfg)
    ensures ProperRun(cfg, states, events) && states[0] == c
    ensures Last(states).operation.completed && Last(states).resolved != AskedProgram(cfg)
  {
    hide SelectorsSingle, Initial, After, AllPossible, AllFindOwn, ProperRun, AskedProgram;
    var moves :| AllPossible(cfg, c, moves) && After(cfg, c, moves).operation.completed;
    states, events := RunThere(cfg, c, moves);
    RunIsNotEmpty(cfg, states, events);
    CompletedDoesAsked(cfg, states, events, |events|);
  }

  /** Two groups that run `pass` on every node; the second one's selector says that its tasks are those of the first. */
  function BorrowingWorkflow(): seq<GroupSpec>
  {
    var theFirst := LabelSelector(map[],
      [Requirement(TASK_GROUP_NAME_LABEL, In, ["a"]), Requirement(TASK_GROUP_ORDER_LABEL, In, ["01"])]);
    [PassEverywhere("a"), PassEverywhere("b").(selector := theFirst)]
  }

  function BorrowingConfig(op: Request, nodes: seq<Node>): Config
  {
    Config(CustomPlan(op, BorrowingWorkflow()), nodes)
  }

  lemma BorrowingPlan(op: Request, nodes: seq<Node>)
    ensures var cfg := BorrowingConfig(op, nodes);
            && Planned(cfg) == cfg.desired && |cfg.desired| == 2 && SelectorsSingle(cfg)
            && cfg.desired[0].name == "a" && cfg.desired[1].name == "b"
  {
    hide Planned, GroupLabels, LabelledApart, SelectorsSingle, TASK_GROUP_NAME_LABEL, TASK_GROUP_ORDER_LABEL;
    var cfg := BorrowingConfig(op, nodes);
    assert SpecNames(BorrowingWorkflow()) == ["a", "b"];
    CustomOrder(op, BorrowingWorkflow(), nodes);
    CustomLabelledApart(op, BorrowingWorkflow());
    LabelsSingle(cfg);
  }

  lemma BorrowingFinds(op: Request, nodes: seq<Node>)
    ensures var d := BorrowingConfig(op, nodes).desired;
            && |d| == 2 && Listable(d[0]) && Listable(d[1]) && FindsOwn(d[0])
            && Finds(d[1], d[0].labels) && !FindsOwn(d[1])
  {
    hide TASK_GROUP_NAME_LABEL, TASK_GROUP_ORDER_LABEL;
    DifferentLabels();
    var d := BorrowingConfig(op, nodes).desired;
    assert TwoDigits(1) == "01" by { assert Digits(1) == "1"; }
    var rs := d[1].selector.matchExpressions;
    var labels := d[1].labels;
    assert rs[..1] == [rs[0]] && [rs[0]][..0] == [];
    assert WithExpressions(labels, []) == Some(labels);
    assert WithExpressions(labels, [rs[0]]) == Some(labels[TASK_GROUP_NAME_LABEL := "a"]);
    assert labels[TASK_GROUP_NAME_LABEL := "a"][TASK_GROUP_ORDER_LABEL := "01"] == d[0].labels;
    assert SelectorMap(d[1].selector) == Some(d[0].labels);
    assert d[1].labels[TASK_GROUP_NAME_LABEL] == "b" && d[0].labels[TASK_GROUP_NAME_LABEL] == "a";
  }

  lemma BorrowingNodes(op: Request, nodes: seq<Node>)
    requires nodes != []
    ensures var cfg := BorrowingConfig(op, nodes);
            && |cfg.desired| == 2 && NodesOf(cfg, cfg.desired[0]) == NodesOf(cfg, cfg.desired[1]) != []
            && cfg.desired[0].commands == cfg.desired[1].commands == [Pass]
  {
    hide GroupLabels, SortNames, SelectNodes;
    var cfg := BorrowingConfig(op, nodes);
    PassNodes(cfg, op, "a", TwoDigits(1), NodeNames(nodes)[0]);
  }

  lemma BorrowingWorks(op: Request, nodes: seq<Node>)
    requires nodes != []
    ensures var cfg := BorrowingConfig(op, nodes);
            && |Planned(cfg)| == 2 && Made(cfg, 0) == NodesOf(cfg, cfg.desired[0]) && Made(cfg, 1) == []
            && SelectorsWork(cfg) && !AllFindOwn(cfg)
  {
    hide Planned, NodesOf, Finds, Listable, SelectorsSingle, Missing;
    var cfg := BorrowingConfig(op, nodes);
    BorrowingPlan(op, nodes);
    BorrowingFinds(op, nodes);
    BorrowingNodes(op, nodes);
    assert Lender(cfg, 1, 1) == 0;
    assert Borrowed(cfg, 1) == Made(cfg, 0) == NodesOf(cfg, cfg.desired[0]);
    NoneMissing(NodesOf(cfg, cfg.desired[1]), Borrowed(cfg, 1));
    assert cfg.desired[1] in Planned(cfg);
  }

  lemma BorrowingCompletes(op: Request, nodes: seq<Node>, c: Cluster)
    requires nodes != [] && Initial(c) && !c.operation.specPaused
    ensures Completable(BorrowingConfig(op, nodes), c)
  {
    hide Planned, NodesOf, Made, SelectorsSingle, SelectorsWork, NamesClash, CommandsEverywhere, TypedMode, Initial,
         Completable, PrefixFree, AllFindOwn, CustomPlan;
    var cfg := BorrowingConfig(op, nodes);
    BorrowingPlan(op, nodes);
    BorrowingNodes(op, nodes);
    BorrowingWorks(op, nodes);
    assert PrefixFree(SpecNames(Planned(cfg))) by { TwoPrefixFree(SpecNames(Planned(cfg))); }
    PrefixFreeIsEnough(cfg);
    DistinctExactly(cfg);
    CommandsOfPlan(cfg);
    CompletesExactly(cfg, c);
  }

  lemma TwoPrefixFree(names: seq<string>)
    requires |names| == 2 && names[0] == "a" && names[1] == "b"
    ensures PrefixFree(names)
  {
  }

  /**
   * On any nodes, in any mode, this workflow has a run that completes it with the commands of its first group only:
   * half of what was asked for.
   */
  lemma WorkflowThatSkips(op: Request, nodes: seq<Node>, c: Cluster)
    returns (states: seq<Cluster>, events: seq<Event>)
    requires nodes != [] && Initial(c) && !c.operation.specPaused
    ensures var cfg := BorrowingConfig(op, nodes);
            && ProperRun(cfg, states, events) && states[0] == c && Last(states).operation.completed
            && |cfg.desired| == 2
            && Last(states).resolved == Program(SlotsOn(cfg.desired[0], NodesOf(cfg, cfg.desired[0])))
            && Last(states).resolved != AskedProgram(cfg)
  {
    hide Initial, Completable, AllFindOwn, ProperRun, AskedProgram, CustomPlan, SelectorsSingle, SelectorsWork, NodesOf,
         Made, SlotsOn, Planned, Program;
    var cfg := BorrowingConfig(op, nodes);
    BorrowingPlan(op, nodes);
    BorrowingWorks(op, nodes);
    BorrowingCompletes(op, nodes, c);
    states, events := BorrowersSkipCommands(cfg, c);
    RunIsNotEmpty(cfg, states, events);
    RunFollowsProgram(cfg, states, events, |events|);
    BorrowingSlots(op, nodes);
  }

  lemma BorrowingSlots(op: Request, nodes: seq<Node>)
    requires nodes != []
    ensures var cfg := BorrowingConfig(op, nodes);
            |cfg.desired| == 2 && AllSlots(cfg) == SlotsOn(cfg.desired[0], NodesOf(cfg, cfg.desired[0]))
  {
    hide NodesOf, Made, Planned, SelectorsSingle, SelectorsWork, AllFindOwn, CustomPlan;
    var cfg := BorrowingConfig(op, nodes);
    BorrowingPlan(op, nodes);
    BorrowingWorks(op, nodes);
    assert SlotsOf(cfg, 1) == [];
    assert Slots(cfg, 0) == [];
    assert Slots(cfg, 1) == Slots(cfg, 0) + SlotsOf(cfg, 0) == SlotsOf(cfg, 0);
    assert Slots(cfg, 2) == Slots(cfg, 1) + SlotsOf(cfg, 1);
  }

  // ---- why a group that borrows must not read too old a list ----

  lemma {:induction false} AfterInv(cfg: Config, c: Cluster, moves: seq<Move>)
    requires SelectorsSingle(cfg) && Inv(cfg, c)
    ensures Inv(cfg, After(cfg, c, moves))
  {
    hide Inv, SelectorsSingle, Moved, Evolves, Done;
    if moves != [] {
      AfterInv(cfg, c, moves[..|moves| - 1]);
      MovedKeeps(cfg, After(cfg, c, moves[..|moves| - 1]), moves[|moves| - 1]);
    }
  }

  /** On the way moves come by every amount of work. */
  lemma {:induction false} WorkReached(cfg: Config, c: Cluster, moves: seq<Move>, v: nat) returns (part: seq<Move>)
    requires SelectorsSingle(cfg) && Inv(cfg, c) && Done(c) <= v <= Done(After(cfg, c, moves))
    ensures Done(After(cfg, c, part)) == v && Inv(cfg, After(cfg, c, part))
  {
    hide Inv, SelectorsSingle, Moved, Evolves, Done;
    AfterInv(cfg, c, moves);
    part := moves;
    if Done(After(cfg, c, moves)) > v && moves != [] {
      var front := moves[..|moves| - 1];
      AfterInv(cfg, c, front);
      MovedKeeps(cfg, After(cfg, c, front), moves[|moves| - 1]);
      part := WorkReached(cfg, c, front, v);
    }
  }

  /** Two units of work before the end the last of two groups is under way, and all tasks are there. */
  lemma AlmostDone(cfg: Config, c: Cluster)
    requires Inv(cfg, c) && |Planned(cfg)| == 2 && Done(c) + 2 == Total(cfg)
    ensures |c.groups| == 2 && c.groups[1].started && !c.groups[1].completed && |c.tasks| == |AllSlots(cfg)|
  {
    hide Planned, Slots, TasksWork, SlotsWork, TotalOf, TasksInOrder, Works, MayFail;
    var k := |c.groups|;
    LastSpec(cfg, c);
    TotalIsSlotsWork(cfg, 2);
    TasksWorkBound(Slots(cfg, k), c.tasks);
    GroupsWorkBound(c.groups);
    SlotsPrefix(cfg, k, 2);
    SlotsWorkPrefix(Slots(cfg, k), Slots(cfg, 2));
    AllWorkDone(cfg, c);
    if k == 2 {
      assert c.groups[..1] == [c.groups[0]];
      GroupsWorkBound(c.groups[..1]);
      assert GroupsWork(c.groups) == GroupsWork(c.groups[..1]) + GroupWork(c.groups[1]);
    }
  }

  /** All stored tasks are of the first group. */
  lemma BorrowingTasks(op: Request, nodes: seq<Node>, c: Cluster, n: string)
    requires nodes != [] && Inv(BorrowingConfig(op, nodes), c) && |c.groups| == 2
    ensures FindTask(c.tasks, TaskName("b", n)) == |c.tasks|
  {
    hide FindTask, Planned, LastGroup, GroupsInOrder, SlotsOn, CustomPlan, NodesOf, TaskOk;
    var cfg := BorrowingConfig(op, nodes);
    BorrowingPlan(op, nodes);
    BorrowingSlots(op, nodes);
    forall j | 0 <= j < |c.tasks| ensures c.tasks[j].name != TaskName("b", n) {
      assert Fits(c.tasks[j], AllSlots(cfg)[j]) && AllSlots(cfg)[j].spec.name == "a";
      assert c.tasks[j].name[0] == 'a';
    }
  }

  /** A reconcile of the second group that reads a list from before there were tasks makes one of its own. */
  lemma StaleStep(op: Request, nodes: seq<Node>, c: Cluster, operation: OperationState)
    requires nodes != [] && Inv(BorrowingConfig(op, nodes), c) && !operation.paused
    requires |c.groups| == 2 && c.groups[1].started && !c.groups[1].completed
    ensures var d := Next(BorrowingConfig(op, nodes), c, ReconcileGroup("b", operation, [], NO_FAULT));
            |d.tasks| == |c.tasks| + 1
  {
    hide FindTask, FindGroup, Planned, InvOf, CustomPlan, SortNames, NodeNames, DesiredNodes, Listable, TaskViews,
         TypedMode, TaskName, SelectorsSingle, Finds, SelectorMap, GroupsInOrder, NewTask;
    var cfg := BorrowingConfig(op, nodes);
    var spec := cfg.desired[1];
    BorrowingPlan(op, nodes);
    BorrowingFinds(op, nodes);
    BorrowingNodes(op, nodes);
    LastSpec(cfg, c);
    InOrder(cfg, c);
    GroupAt(cfg, c.groups, 1);
    TasksFront(DesiredNodes(cfg.nodes, spec), []);
    var w := TaskViews(DesiredNodes(cfg.nodes, spec), []);
    BorrowingTasks(op, nodes, c, w.tobeCreated[0].name);
  }

  /**
   * The same workflow also has a run in which the second group reads a list of tasks from before those of the first
   * were created, and then makes a task where it should have made none; so that run is not a proper one.
   */
  lemma StaleListAddsTask(op: Request, nodes: seq<Node>, c: Cluster) returns (states: seq<Cluster>, events: seq<Event>)
    requires nodes != [] && Initial(c) && !c.operation.specPaused
    ensures var cfg := BorrowingConfig(op, nodes);
            && IsRun(cfg, states, events) && states[0] == c && |Last(states).tasks| > |AllSlots(cfg)|
            && !ProperRun(cfg, states, events)
  {
    hide Planned, InvOf, Next, IsRun, SelectorsSingle, After, AllPossible, Done, Total, BorrowingConfig, AllSlots,
         ReadsInTime;
    var cfg := BorrowingConfig(op, nodes);
    BorrowingPlan(op, nodes);
    BorrowingCompletes(op, nodes, c);
    InitialInv(cfg, c);
    var moves :| AllPossible(cfg, c, moves) && After(cfg, c, moves).operation.completed;
    AfterInv(cfg, c, moves);
    AllWorkDone(cfg, After(cfg, c, moves));
    NothingDone(cfg, c);
    var part := WorkReached(cfg, c, moves, Total(cfg) - 2);
    AlmostDone(cfg, After(cfg, c, part));
    states, events := RunThere(cfg, c, part);
    RunLength(cfg, states, events);
    StaleStep(op, nodes, Last(states), c.operation);
    var e := ReconcileGroup("b", c.operation, [], NO_FAULT);
    assert states[0] in states && Reads(states, e);
    GoOnRun(cfg, states, events, e);
    states, events := states + [Next(cfg, Last(states), e)], events + [e];
    if ProperRun(cfg, states, events) { NoMoreTasks(cfg, states, events); }
  }

  lemma NothingDone(cfg: Config, c: Cluster)
    requires Initial(c) && |Planned(cfg)| == 2
    ensures Done(c) == 0 && Total(cfg) >= 2
  {
    hide Planned, Made;
  }

  lemma NoMoreTasks(cfg: Config, states: seq<Cluster>, events: seq<Event>)
    requires ProperRun(cfg, states, events)
    ensures |states| == |events| + 1 && |Last(states).tasks| <= |AllSlots(cfg)|
  {
    hide Planned, Inv, SelectorsSingle, ReadsInTime, Evolves, IsRun, Slots;
    RunLength(cfg, states, events);
    RunKeeps(cfg, states, events);
    TasksFit(cfg, Last(states));
    SlotsPrefix(cfg, |Last(states).groups|, |Planned(cfg)|);
  }
}
