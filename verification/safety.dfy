/** What every reconcile and every user move keeps, whatever stale lists it read. */
module Safety {
  import opened Names
  import opened Api
  import opened Matching
  import opened Machine
  import opened Schedule

  // ---- the invariant ----

  function Max1(n: nat): nat { if n == 0 then 1 else n }

  predicate TaskOk(t: TaskState)
  {
    && (t.started ==> 1 <= t.cursor <= Max1(|t.commands|))
    && (!t.started ==> t.cursor == 0 && t.error.None? && !t.completed)
    && (t.completed ==> t.cursor == Max1(|t.commands|) && t.error.None?)
  }

  predicate Fits(t: TaskState, s: Slot)
  {
    && t.name == TaskName(s.spec.name, s.node) && t.group == s.spec.name && t.node == s.node
    && t.labels == s.spec.labels && t.commands == s.spec.commands
  }

  predicate GroupOk(g: GroupState)
  {
    g.completed ==> g.started && g.error.None?
  }

  predicate OperationOk(o: OperationState)
  {
    o.completed ==> o.started && o.error.None?
  }

  /** The groups are the first planned groups, and all but the last are completed. */
  ghost predicate GroupsInOrder(cfg: Config, groups: seq<GroupState>)
  {
    && |groups| <= |Planned(cfg)|
    && (forall i :: 0 <= i < |groups| ==> groups[i].spec == Planned(cfg)[i] && GroupOk(groups[i]))
    && (forall i :: 0 <= i < |groups| && groups[i].completed ==> Works(cfg, i))
    && (forall i :: 0 <= i < |groups| && groups[i].error.Some? ==> MayFail(cfg, i))
    && (forall i :: 0 <= i < |groups| - 1 ==> groups[i].completed)
  }

  /** The tasks are on the first slots, and all but the last are completed. */
  ghost predicate TasksInOrder(slots: seq<Slot>, tasks: seq<TaskState>)
  {
    && |tasks| <= |slots|
    && (forall j :: 0 <= j < |tasks| ==> Fits(tasks[j], slots[j]) && TaskOk(tasks[j]))
    && (forall j :: 0 <= j < |tasks| - 1 ==> tasks[j].completed)
    && (forall i, j :: 0 <= i < j < |tasks| ==> tasks[i].name != tasks[j].name)
  }

  predicate LastDone(tasks: seq<TaskState>)
  {
    tasks != [] ==> tasks[|tasks| - 1].completed
  }

  /** The last group and the tasks: none before it starts, all done when it is completed. */
  ghost predicate LastGroup(cfg: Config, g: GroupState, k: nat, tasks: seq<TaskState>)
    requires 0 < k <= |Planned(cfg)|
  {
    var before, until := |Slots(cfg, k - 1)|, |Slots(cfg, k)|;
    && before <= |tasks| <= until
    && (|tasks| == before ==> LastDone(tasks))
    && (!g.started ==> |tasks| == before)
    && (g.completed ==> |tasks| == until && LastDone(tasks))
  }

  ghost predicate InvOf(cfg: Config, o: OperationState, groups: seq<GroupState>, tasks: seq<TaskState>)
  {
    var k := |groups|;
    && GroupsInOrder(cfg, groups)
    && TasksInOrder(Slots(cfg, k), tasks)
    && (k > 0 ==> LastGroup(cfg, groups[k - 1], k, tasks) && o.started)
    && OperationOk(o)
    && (o.completed ==> k == |Planned(cfg)| && (k > 0 ==> groups[k - 1].completed))
  }

  /** The invariant of the whole system. */
  ghost predicate Inv(cfg: Config, c: Cluster)
  {
    InvOf(cfg, c.operation, c.groups, c.tasks)
  }

  // ---- what only grows ----

  predicate SameTask(a: TaskState, b: TaskState)
  {
    a.name == b.name && a.group == b.group && a.node == b.node && a.labels == b.labels && a.commands == b.commands
  }

  /** A completed task only ever has its recovery mode edited, by the user. */
  predicate TaskEvolves(a: TaskState, b: TaskState)
  {
    SameTask(a, b) && (a.completed ==> b == a.(recovery := b.recovery))
  }

  predicate GroupEvolves(a: GroupState, b: GroupState)
  {
    a.spec == b.spec && (a.completed ==> b == a)
  }

  predicate OperationEvolves(a: OperationState, b: OperationState)
  {
    a.completed ==> b == a.(specPaused := b.specPaused)
  }

  ghost predicate GroupsEvolve(a: seq<GroupState>, b: seq<GroupState>)
  {
    |a| <= |b| && forall i :: 0 <= i < |a| ==> GroupEvolves(a[i], b[i])
  }

  ghost predicate TasksEvolve(a: seq<TaskState>, b: seq<TaskState>)
  {
    |a| <= |b| && forall i :: 0 <= i < |a| ==> TaskEvolves(a[i], b[i])
  }

  /** Groups and tasks are only appended, keep their identity, and never change once completed. */
  ghost predicate Evolves(a: Cluster, b: Cluster)
  {
    GroupsEvolve(a.groups, b.groups) && TasksEvolve(a.tasks, b.tasks) && OperationEvolves(a.operation, b.operation)
  }

  lemma EvolvesTransitive(a: Cluster, b: Cluster, c: Cluster)
    requires Evolves(a, b) && Evolves(b, c)
    ensures Evolves(a, c)
  {
    forall i | 0 <= i < |a.groups| ensures GroupEvolves(a.groups[i], c.groups[i]) {
      assert GroupEvolves(a.groups[i], b.groups[i]) && GroupEvolves(b.groups[i], c.groups[i]);
    }
    forall i | 0 <= i < |a.tasks| ensures TaskEvolves(a.tasks[i], c.tasks[i]) {
      assert TaskEvolves(a.tasks[i], b.tasks[i]) && TaskEvolves(b.tasks[i], c.tasks[i]);
    }
  }

  // ---- what the controllers see ----

  /** In an old listing the tasks of a planned group `i` that finds its own are those from its first slot on. */
  ghost predicate Listed(cfg: Config, tasks: seq<TaskState>, i: nat, list: seq<TaskState>)
    requires i < |Planned(cfg)|
  {
    var n, ns := |Slots(cfg, i)|, Made(cfg, i);
    && list == (if n <= |tasks| then tasks[n..] else [])
    && |list| <= |ns|
    && forall j :: 0 <= j < |list| ==> list[j].node == ns[j]
  }

  /** The group whose tasks group `i` takes for its own, if it is an earlier one, is completed. */
  predicate LenderDone(cfg: Config, groups: seq<GroupState>, i: nat)
    requires i < |Planned(cfg)|
  {
    var j := Lender(cfg, i, i);
    j < i ==> j < |groups| && groups[j].completed
  }

  /** Every stored task has the labels of a group that exists and sits in one of its slots. */
  lemma TaskOwner(cfg: Config, h: Cluster, j: nat) returns (q: nat)
    requires Inv(cfg, h) && j < |h.tasks|
    ensures q < |h.groups| <= |Planned(cfg)| && |Slots(cfg, q)| <= j < |Slots(cfg, q + 1)|
    ensures h.tasks[j].labels == Planned(cfg)[q].labels
    ensures h.tasks[j].node == Made(cfg, q)[j - |Slots(cfg, q)|]
  {
    hide Planned, Made, SlotsOf, Slots, LastGroup, GroupsInOrder, TaskName, TaskOk, OperationOk;
    LastSpec(cfg, h);
    var k := |h.groups|;
    assert Fits(h.tasks[j], Slots(cfg, k)[j]);
    q := SlotGroup(cfg, k, j);
    SlotAt(cfg, q, k, j);
    SlotCount(cfg, q);
  }

  /** The selector of group `i` finds a stored task exactly when the slot of the task belongs to group `q`. */
  lemma TaskFound(cfg: Config, h: Cluster, i: nat, q: nat, j: nat)
    requires SelectorsSingle(cfg) && Inv(cfg, h) && i < |Planned(cfg)| && q < |Planned(cfg)| && j < |h.tasks|
    requires Finds(Planned(cfg)[i], Planned(cfg)[q].labels)
    ensures Finds(Planned(cfg)[i], h.tasks[j].labels) <==> |Slots(cfg, q)| <= j < |Slots(cfg, q + 1)|
    ensures |Slots(cfg, q)| <= j < |Slots(cfg, q + 1)| ==> h.tasks[j].node == Made(cfg, q)[j - |Slots(cfg, q)|]
  {
    hide Planned, Made, SlotsOf, Slots, Finds, Inv;
    var o := TaskOwner(cfg, h, j);
    SlotCount(cfg, q);
    if o < q { SlotsPrefix(cfg, o + 1, q); }
    if q < o { SlotsPrefix(cfg, q + 1, o); }
  }

  lemma OwnListed(cfg: Config, h: Cluster, i: nat)
    requires SelectorsSingle(cfg) && Inv(cfg, h) && i < |Planned(cfg)| && |h.groups| <= i + 1
    requires FindsOwn(Planned(cfg)[i])
    ensures Listed(cfg, h.tasks, i, TasksOf(h.tasks, Planned(cfg)[i]))
  {
    hide Planned, Made, SlotsOf, Slots, InvOf, Finds, TasksOf, SelectorsSingle;
    var p, n, m := Planned(cfg)[i], |Slots(cfg, i)|, |Slots(cfg, i + 1)|;
    SlotCount(cfg, i);
    forall j | 0 <= j < |h.tasks| ensures j < m && (Finds(p, h.tasks[j].labels) <==> n <= j) {
      var o := TaskOwner(cfg, h, j);
      SlotsPrefix(cfg, o + 1, i + 1);
      TaskFound(cfg, h, i, i, j);
    }
    TasksOfRange(h.tasks, p, if n <= |h.tasks| then n else |h.tasks|, |h.tasks|);
    var list := TasksOf(h.tasks, p);
    if list != [] { assert Finds(p, h.tasks[|h.tasks| - 1].labels); }
    forall k | 0 <= k < |list| ensures list[k].node == Made(cfg, i)[k] { TaskFound(cfg, h, i, i, n + k); }
  }

  /** A group that does not find its own tasks finds all those of its lender, and these are completed. */
  lemma {:induction false} LentListed(cfg: Config, h: Cluster, i: nat)
    requires SelectorsSingle(cfg) && Inv(cfg, h) && i < |Planned(cfg)| && |h.groups| <= i + 1
    requires !FindsOwn(Planned(cfg)[i]) && LenderDone(cfg, h.groups, i)
    ensures var list := TasksOf(h.tasks, Planned(cfg)[i]);
            && (forall j :: 0 <= j < |list| ==> list[j].completed && list[j].error.None?)
            && TaskNodes(list) == Borrowed(cfg, i)
  {
    hide Planned, Made, SlotsOf, Slots, InvOf, Finds, TasksOf, SelectorsSingle;
    var p, l := Planned(cfg)[i], Lender(cfg, i, i);
    var list := TasksOf(h.tasks, p);
    if l < i {
      var n, m := |Slots(cfg, l)|, |Slots(cfg, l + 1)|;
      SlotCount(cfg, l);
      LenderTasks(cfg, h, l);
      forall j | 0 <= j < |h.tasks| ensures Finds(p, h.tasks[j].labels) <==> n <= j < m { TaskFound(cfg, h, i, l, j); }
      TasksOfRange(h.tasks, p, n, m);
      forall k | 0 <= k < |list| ensures list[k].node == Made(cfg, l)[k] { TaskFound(cfg, h, i, l, n + k); }
      forall k | 0 <= k < |list| ensures list[k].completed && list[k].error.None? {
        assert list[k] == h.tasks[n + k];
      }
    } else {
      forall j | 0 <= j < |h.tasks| ensures !Finds(p, h.tasks[j].labels) { var o := TaskOwner(cfg, h, j); }
      TasksOfRange(h.tasks, p, 0, 0);
    }
  }

  /** The tasks of a completed group are there and completed. */
  lemma {:induction false} LenderTasks(cfg: Config, h: Cluster, l: nat)
    requires Inv(cfg, h) && l < |h.groups| && h.groups[l].completed
    ensures |h.groups| <= |Planned(cfg)| && |Slots(cfg, l + 1)| <= |h.tasks|
    ensures forall j :: 0 <= j < |Slots(cfg, l + 1)| ==> h.tasks[j].completed && h.tasks[j].error.None?
  {
    hide Planned, Slots, Fits, OperationOk, GroupOk, Works, MayFail;
    var k := |h.groups|;
    if l < k - 1 {
      SlotsPrefix(cfg, l + 1, k - 1);
    }
  }

  /** The group controller's views: a front of the group's nodes `ns`, with the tasks in `list`. */
  ghost predicate SeesTasks(w: Views<TaskItem>, ns: seq<string>, list: seq<TaskState>)
  {
    && |list| <= |ns| && |w.all| == |ns| && |w.invalid| == 0
    && (|w.completed| == |w.all| <==> |list| == |ns| && LastDone(list))
    && (w.Active() > 0 <==> list != [] && !IsFailed(list[|list| - 1]) && !list[|list| - 1].completed)
    && (|w.failed| > 0 <==> list != [] && IsFailed(list[|list| - 1]))
    && (|w.tobeCreated| > 0 <==> |list| < |ns|)
    && (|list| < |ns| ==> w.tobeCreated[0].name == ns[|list|])
  }

  /** Tasks on the first nodes, all but the last completed, show as a front. */
  lemma TasksFront(nodes: seq<Node>, list: seq<TaskState>)
    requires |list| <= |SortNames(NodeNames(nodes))|
    requires forall j :: 0 <= j < |list| ==> list[j].node == SortNames(NodeNames(nodes))[j] && TaskOk(list[j])
    requires forall j :: 0 <= j < |list| - 1 ==> list[j].completed
    ensures SeesTasks(TaskViews(nodes, list), SortNames(NodeNames(nodes)), list)
  {
    hide MatchTasks, Derive, TypedRecovery, SortNames, NodeNames;
    MatchTasksFront(nodes, list);
    var all := MatchTasks(nodes, list);
    FrontViews(TaskClass, all, |list|);
    ViewsOfAll(TaskClass, all);
  }

  /** An old list of tasks of the group at place `i`, and the views made of it, if the group finds its own tasks. */
  lemma GroupSees(cfg: Config, h: Cluster, i: nat) returns (list: seq<TaskState>, w: Views<TaskItem>)
    requires SelectorsSingle(cfg) && Inv(cfg, h) && i < |Planned(cfg)| && |h.groups| <= i + 1
    requires Listable(Planned(cfg)[i]) && FindsOwn(Planned(cfg)[i])
    ensures list == TasksOf(h.tasks, Planned(cfg)[i]) && Listed(cfg, h.tasks, i, list)
    ensures w == TaskViews(DesiredNodes(cfg.nodes, Planned(cfg)[i]), list)
    ensures SeesTasks(w, NodesOf(cfg, Planned(cfg)[i]), list) && Made(cfg, i) == NodesOf(cfg, Planned(cfg)[i])
  {
    hide Planned, Slots, Finds, LastGroup, GroupsInOrder, Fits, DesiredNodes, TaskViews, TasksOf, TaskOk, SeesTasks,
         SortNames, NodeNames, SelectorsSingle;
    var p := Planned(cfg)[i];
    list := TasksOf(h.tasks, p);
    w := TaskViews(DesiredNodes(cfg.nodes, p), list);
    OwnListed(cfg, h, i);
    TasksFront(DesiredNodes(cfg.nodes, p), list);
  }

  /** The views of a group that does not find its own tasks. */
  lemma GroupSeesLent(cfg: Config, h: Cluster, i: nat) returns (w: Views<TaskItem>)
    requires SelectorsSingle(cfg) && Inv(cfg, h) && i < |Planned(cfg)| && |h.groups| <= i + 1
    requires !FindsOwn(Planned(cfg)[i]) && LenderDone(cfg, h.groups, i)
    ensures w == TaskViews(DesiredNodes(cfg.nodes, Planned(cfg)[i]), TasksOf(h.tasks, Planned(cfg)[i]))
    ensures SeesBorrowed(w, NodesOf(cfg, Planned(cfg)[i]), Borrowed(cfg, i))
  {
    hide Planned, Borrowed, Finds, InvOf, DesiredNodes, TaskViews, TasksOf, SeesBorrowed, SortNames, NodeNames,
         SelectorsSingle, LenderDone;
    var p := Planned(cfg)[i];
    LentListed(cfg, h, i);
    BorrowedFront(DesiredNodes(cfg.nodes, p), TasksOf(h.tasks, p));
    w := TaskViews(DesiredNodes(cfg.nodes, p), TasksOf(h.tasks, p));
  }

  lemma ViewsOfAll<T>(cls: T -> View, all: seq<T>)
    ensures Derive(cls, all).all == all
  {
  }

  /** The operation controller's views: a front of the plan `p`, with the groups given. */
  ghost predicate SeesGroups(w: Views<GroupItem>, p: seq<GroupSpec>, groups: seq<GroupState>)
  {
    && |groups| <= |p| && |w.all| == |p| && |w.invalid| == 0
    && (|w.completed| == |w.all| <==> |groups| == |p| && (groups != [] ==> groups[|groups| - 1].completed))
    && (w.Active() > 0 <==> groups != [] && groups[|groups| - 1].error.None? && !groups[|groups| - 1].completed)
    && (|w.failed| > 0 <==> groups != [] && groups[|groups| - 1].error.Some?)
    && (|w.tobeCreated| > 0 <==> |groups| < |p|)
    && (|groups| < |p| ==> w.tobeCreated[0].planned == Some(p[|groups|]))
  }

  lemma OperationSees(cfg: Config, groups: seq<GroupState>) returns (w: Views<GroupItem>)
    requires GroupsInOrder(cfg, groups)
    ensures w == GroupViews(cfg.desired, groups)
    ensures SeesGroups(w, Planned(cfg), groups)
  {
    hide Planned, MatchGroups, Derive, Works, MayFail;
    w := GroupViews(cfg.desired, groups);
    MatchGroupsFront(cfg, groups);
    var all := MatchGroups(cfg.desired, groups);
    FrontViews(GroupClass, all, |groups|);
    ViewsOfAll(GroupClass, all);
  }

  // ---- one change at a time ----

  /** Planned groups have distinct names, so the first group found by name is the one at that place in the plan. */
  lemma {:induction false} GroupAt(cfg: Config, groups: seq<GroupState>, i: nat)
    requires GroupsInOrder(cfg, groups) && i < |Planned(cfg)|
    ensures FindGroup(groups, Planned(cfg)[i].name) == if i < |groups| then i else |groups|
  {
    hide Planned, FindGroup, GroupOk, Works, MayFail;
    var p := Planned(cfg);
    var f := FindGroup(groups, p[i].name);
    if f < |groups| { AscendingDistinct(SpecNames(p), f, i); }
  }

  lemma {:induction false} PatchLastGroup(cfg: Config, c: Cluster, g: GroupState)
    requires 0 < |c.groups| <= |Planned(cfg)| && Inv(cfg, c) && !c.groups[|c.groups| - 1].completed
    requires g.spec == c.groups[|c.groups| - 1].spec && GroupOk(g)
    requires c.groups[|c.groups| - 1].started ==> g.started
    requires g.completed ==> |c.tasks| == |Slots(cfg, |c.groups|)| && LastDone(c.tasks)
    requires g.completed ==> Works(cfg, |c.groups| - 1)
    requires g.error.Some? ==> MayFail(cfg, |c.groups| - 1)
    ensures var d := c.(groups := c.groups[|c.groups| - 1 := g]);
            Inv(cfg, d) && Evolves(c, d)
  {
    hide Planned, Slots, TasksInOrder, Works, MayFail;
  }

  lemma AppendGroup(cfg: Config, c: Cluster)
    requires Inv(cfg, c) && |c.groups| < |Planned(cfg)| && c.operation.started && !c.operation.completed
    requires c.groups != [] ==> c.groups[|c.groups| - 1].completed
    ensures var d := c.(groups := c.groups + [NewGroup(Planned(cfg)[|c.groups|])]);
            Inv(cfg, d) && Evolves(c, d)
  {
    hide Planned, Slots, Fits, TaskOk, Works, MayFail;
    var k := |c.groups|;
    SlotsPrefix(cfg, k, k + 1);
    assert TasksInOrder(Slots(cfg, k + 1), c.tasks);
    NoSlots(cfg);
    assert LastDone(c.tasks);
  }

  lemma {:induction false} NoSlots(cfg: Config)
    ensures |Slots(cfg, 0)| == 0
  {
  }

  lemma {:induction false} AppendTask(cfg: Config, c: Cluster, t: TaskState)
    requires Inv(cfg, c) && c.groups != [] && LastDone(c.tasks)
    requires c.groups[|c.groups| - 1].started && !c.groups[|c.groups| - 1].completed
    requires |c.tasks| < |Slots(cfg, |c.groups|)| && Fits(t, Slots(cfg, |c.groups|)[|c.tasks|]) && TaskOk(t)
    requires FindTask(c.tasks, t.name) == |c.tasks|
    ensures var d := c.(tasks := c.tasks + [t]);
            Inv(cfg, d) && Evolves(c, d)
  {
    hide Planned, Slots, GroupsInOrder, FindTask, Fits, TaskOk;
  }

  lemma UpdateTask(cfg: Config, c: Cluster, i: nat, t: TaskState)
    requires Inv(cfg, c) && i < |c.tasks|
    requires TaskEvolves(c.tasks[i], t) && TaskOk(t)
    ensures var d := c.(tasks := c.tasks[i := t]);
            Inv(cfg, d) && Evolves(c, d)
  {
    hide Planned, Slots, TaskOk;
    var tasks := c.tasks[i := t];
    forall a, b | 0 <= a < b < |tasks| ensures tasks[a].name != tasks[b].name {
      assert c.tasks[a].name != c.tasks[b].name;
    }
    assert TasksInOrder(Slots(cfg, |c.groups|), tasks);
  }

  lemma PatchedOperation(cfg: Config, c: Cluster, o: OperationState)
    requires Inv(cfg, c) && !c.operation.completed && OperationOk(o) && (c.operation.started ==> o.started)
    requires o.completed ==> |c.groups| == |Planned(cfg)| && (c.groups != [] ==> c.groups[|c.groups| - 1].completed)
    ensures var d := c.(operation := o);
            Inv(cfg, d) && Evolves(c, d)
  {
    hide Planned, Slots, GroupsInOrder, TasksInOrder, LastGroup;
  }

  // ---- one step ----

  /** What a group reconcile decides from the front it sees. */
  lemma GroupDecides(
      operation: OperationState, g: GroupState, w: Views<TaskItem>, ns: seq<string>, list: seq<TaskState>)
    requires SeesTasks(w, ns, list) && !g.completed
    ensures var (g1, create) := GroupStep(operation, g, w);
            && g1.spec == g.spec && GroupOk(g1) && (g.started ==> g1.started)
            && (g1.completed ==> create.None? && g.started && |list| == |ns| && LastDone(list))
            && (g1.error.Some? ==> g.error.Some? || list != [])
            && (create.Some? ==> g.started && !operation.paused && |list| < |ns| && create.value == ns[|list|]
                                 && LastDone(list))
  {
    hide IsFailed;
  }

  /** What a group reconcile decides that sees tasks of another group, completed, on the nodes `seen`. */
  lemma {:induction false} LentDecides(
      operation: OperationState, g: GroupState, w: Views<TaskItem>, ns: seq<string>, seen: seq<string>)
    requires SeesBorrowed(w, ns, seen) && !g.completed
    ensures var (g1, create) := GroupStep(operation, g, w);
            && g1.spec == g.spec && GroupOk(g1) && (g.started ==> g1.started)
            && (g1.completed ==> create.None? && g.started && seen == ns)
            && (g1.error.Some? ==> g.error.Some? || !Fit(seen, ns))
            && (create.Some? ==> g.started && !operation.paused && Fit(seen, ns) && Missing(ns, seen) != []
                                 && create.value == Missing(ns, seen)[0])
  {
    hide Fit, Missing;
  }

  /** What an operation reconcile decides from the front it sees. */
  lemma OperationDecides(o: OperationState, w: Views<GroupItem>, p: seq<GroupSpec>, groups: seq<GroupState>)
    requires SeesGroups(w, p, groups) && OperationOk(o) && !o.completed
    requires forall i :: 0 <= i < |groups| ==> GroupOk(groups[i])
    ensures var (o1, create) := OperationNormal(w, o);
            && OperationOk(o1) && (o.started ==> o1.started)
            && (o1.completed ==> create.None? && |groups| == |p| && (groups != [] ==> groups[|groups| - 1].completed))
            && (create.Some? ==>
                  && o.started && !o.paused && !o1.completed && |groups| < |p| && create.value == p[|groups|]
                  && (groups != [] ==> groups[|groups| - 1].completed))
  {
  }

  lemma ErrorIsPossible(cfg: Config, c: Cluster, i: nat)
    requires Inv(cfg, c) && i < |c.groups| <= |Planned(cfg)| && c.groups[i].error.Some?
    ensures MayFail(cfg, i)
  {
    hide Planned, Slots, TasksInOrder, LastGroup, Works, MayFail;
  }

  lemma LaterGroups(cfg: Config, h: Cluster, c: Cluster)
    requires Inv(cfg, h) && Inv(cfg, c) && Evolves(h, c)
    ensures |h.groups| <= |c.groups| <= |Planned(cfg)|
    ensures h.groups != [] && h.groups[|h.groups| - 1].completed ==> c.groups[|h.groups| - 1].completed
  {
    hide Planned, Slots, TasksInOrder, LastGroup, TasksEvolve;
    assert h.groups != [] ==> GroupEvolves(h.groups[|h.groups| - 1], c.groups[|h.groups| - 1]);
  }

  /** Creating planned group `k`, the first that an old listing misses: refused if it exists by now. */
  lemma CreateGroupKeeps(cfg: Config, c: Cluster, k: nat, o: OperationState)
    requires |c.groups| <= |Planned(cfg)| && Inv(cfg, c) && k <= |c.groups| && k < |Planned(cfg)|
    requires c.operation.started && !c.operation.completed && o.started && !o.completed
    requires k > 0 ==> c.groups[k - 1].completed
    requires FindGroup(c.groups, Planned(cfg)[k].name) == |c.groups|
    ensures var d := c.(groups := c.groups + [NewGroup(Planned(cfg)[k])]);
            Inv(cfg, d) && Evolves(c, d) && Inv(cfg, d.(operation := o)) && Evolves(c, d.(operation := o))
  {
    hide Planned, Slots, TasksInOrder, LastGroup, FindGroup, Evolves;
    GroupAt(cfg, c.groups, k);
    AppendGroup(cfg, c);
    var d := c.(groups := c.groups + [NewGroup(Planned(cfg)[k])]);
    PatchedOperation(cfg, d, o);
    EvolvesTransitive(c, d, d.(operation := o));
  }

  lemma OperationPlansKeeps(cfg: Config, h: Cluster, c: Cluster, o: OperationState, fault: Fault)
    requires Inv(cfg, h) && Inv(cfg, c) && Evolves(h, c) && !c.operation.completed
    requires o == c.operation.(paused := c.operation.specPaused)
    ensures Inv(cfg, OperationPlans(cfg, c, o, h.groups, fault))
        && Evolves(c, OperationPlans(cfg, c, o, h.groups, fault))
  {
    hide Planned, InvOf, Evolves, OperationNormal, GroupViews, SeesGroups, GroupsInOrder, FindGroup;
    SelfEvolves(c);
    InOrder(cfg, h);
    OperationStays(cfg, c);
    var w := OperationSees(cfg, h.groups);
    var o1 := o.(counters := w.Counters());
    OperationDecides(o1, w, Planned(cfg), h.groups);
    var (o2, create) := OperationNormal(w, o1);
    LaterGroups(cfg, h, c);
    PatchedOperation(cfg, c, o2);
    PatchedOperation(cfg, c, PhasedOperation(o2));
    if create.Some? && !GroupRefused(c, create.value, fault) {
      CreateGroupKeeps(cfg, c, |h.groups|, PhasedOperation(o2));
    }
  }

  lemma OperationStepKeeps(cfg: Config, h: Cluster, c: Cluster, fault: Fault)
    requires Inv(cfg, h) && Inv(cfg, c) && Evolves(h, c)
    ensures Inv(cfg, OperationReconciled(cfg, c, h.groups, fault))
        && Evolves(c, OperationReconciled(cfg, c, h.groups, fault))
  {
    hide Planned, InvOf, Evolves, OperationPlans, DaemonSetShouldBeRunning;
    var o := c.operation;
    SelfEvolves(c);
    if o.completed {
      OnlyObjectsMatter(cfg, c, c, c.(daemonSet := false));
    } else {
      var o1 := o.(paused := o.specPaused);
      var c1 := c.(daemonSet := DaemonSetShouldBeRunning(o1));
      OperationStays(cfg, c);
      OnlyObjectsMatter(cfg, c, c, c1);
      PatchedOperation(cfg, c, o1);
      PatchedOperation(cfg, c1, o1);
      OnlyObjectsMatter(cfg, h, c, c1);
      EvolvesTransitive(c, c1, c1.(operation := o1));
      if !fault.daemonSet && !fault.list {
        OperationPlansKeeps(cfg, h, c1, o1, fault);
        EvolvesTransitive(c, c1, OperationPlans(cfg, c1, o1, h.groups, fault));
      }
    }
  }

  lemma InOrder(cfg: Config, h: Cluster)
    requires Inv(cfg, h)
    ensures GroupsInOrder(cfg, h.groups) && OperationOk(h.operation)
    ensures forall i :: 0 <= i < |h.groups| ==> GroupOk(h.groups[i])
  {
    hide Planned, Slots, TasksInOrder, LastGroup;
  }

  lemma OperationStays(cfg: Config, c: Cluster)
    requires Inv(cfg, c)
    ensures OperationOk(c.operation)
  {
    hide Planned, Slots, TasksInOrder, LastGroup, GroupsInOrder;
  }

  lemma SelfEvolves(c: Cluster)
    ensures Evolves(c, c)
  {
  }

  /** What the front of an old listing says about the tasks stored now: they are at least as far. */
  lemma {:induction false} StillThere(cfg: Config, h: Cluster, c: Cluster, list: seq<TaskState>)
    requires Inv(cfg, h) && Inv(cfg, c) && Evolves(h, c) && c.groups != []
    requires Listed(cfg, h.tasks, |c.groups| - 1, list)
    ensures |Slots(cfg, |c.groups| - 1)| + |list| <= |c.tasks| <= |Slots(cfg, |c.groups|)|
    ensures LastDone(list) && |c.tasks| == |Slots(cfg, |c.groups| - 1)| + |list| ==> LastDone(c.tasks)
  {
    hide Planned, Slots, GroupsInOrder, Made, TaskOk, Fits;
    if list != [] && LastDone(list) { assert TaskEvolves(h.tasks[|h.tasks| - 1], c.tasks[|h.tasks| - 1]); }
  }

  lemma OnlyLastIncomplete(cfg: Config, c: Cluster, i: nat)
    requires Inv(cfg, c) && i < |c.groups| && !c.groups[i].completed
    ensures i == |c.groups| - 1 && !c.operation.completed
  {
    hide Planned, Slots, TasksInOrder, LastGroup;
  }

  /**
   * A decision that suits group `i` of a cluster: complete only a group that works when its tasks are all there and
   * done, report an error only of a group that may fail, and create only the task of slot `s`.
   */
  ghost predicate Suits(
      cfg: Config, c: Cluster, i: nat, operation: OperationState, g1: GroupState, create: Option<string>, s: nat)
    requires i < |c.groups| && i < |Planned(cfg)|
  {
    var g := c.groups[i];
    && g1.spec == g.spec && GroupOk(g1) && (g.started ==> g1.started)
    && (g1.completed ==>
          create.None? && g.started && Works(cfg, i) && |c.tasks| == |Slots(cfg, i + 1)| && LastDone(c.tasks))
    && (g1.error.Some? ==> MayFail(cfg, i))
    && (create.Some? ==>
          && g.started && !operation.paused && s <= |c.tasks| && s < |Slots(cfg, i + 1)|
          && Slots(cfg, i + 1)[s] == Slot(g.spec, create.value) && (|c.tasks| == s ==> LastDone(c.tasks)))
  }

  lemma OwnOutcome(cfg: Config, h: Cluster, c: Cluster, i: nat, operation: OperationState) returns (s: nat)
    requires SelectorsSingle(cfg) && Inv(cfg, h) && Inv(cfg, c) && Evolves(h, c)
    requires i < |c.groups| <= |Planned(cfg)| && !c.groups[i].completed
    requires Listable(Planned(cfg)[i]) && FindsOwn(Planned(cfg)[i])
    ensures var w := TaskViews(DesiredNodes(cfg.nodes, Planned(cfg)[i]), TasksOf(h.tasks, Planned(cfg)[i]));
            var (g1, create) := GroupStep(operation, c.groups[i], w);
            Suits(cfg, c, i, operation, g1, create, s)
  {
    hide Planned, Slots, SelectorsSingle, Finds, GroupStep, TasksOf, Listable, TaskViews, NodesOf, DesiredNodes,
         Evolves, InvOf, SeesTasks, Listed, Made, Borrowed, TaskOk, GroupOk;
    var g := c.groups[i];
    LastSpec(cfg, c);
    LaterGroups(cfg, h, c);
    if g.error.Some? { ErrorIsPossible(cfg, c, i); }
    OnlyLastIncomplete(cfg, c, i);
    var list, w := GroupSees(cfg, h, i);
    GroupDecides(operation, g, w, NodesOf(cfg, Planned(cfg)[i]), list);
    StillThere(cfg, h, c, list);
    SlotCount(cfg, i);
    s := |Slots(cfg, i)| + |list|;
    if |list| < |NodesOf(cfg, Planned(cfg)[i])| { SlotAt(cfg, i, i + 1, s); }
  }

  /** Where a group stands that makes its tasks, if any, after those of all groups before it. */
  lemma {:induction false} Bounds(cfg: Config, c: Cluster)
    requires Inv(cfg, c) && c.groups != []
    ensures var i := |c.groups| - 1;
            && i < |Planned(cfg)| && |Slots(cfg, i)| <= |c.tasks| <= |Slots(cfg, i + 1)|
            && (|c.tasks| == |Slots(cfg, i)| ==> LastDone(c.tasks))
  {
    hide Planned, Slots, TasksInOrder, Works, MayFail;
  }

  /** The slots of a group that does not find its own tasks. */
  lemma LentSlots(cfg: Config, i: nat)
    requires i < |Planned(cfg)| && !FindsOwn(Planned(cfg)[i]) && Listable(Planned(cfg)[i])
    ensures var b, ns, n := Borrowed(cfg, i), NodesOf(cfg, Planned(cfg)[i]), |Slots(cfg, i)|;
            && (b == ns ==> |Slots(cfg, i + 1)| == n && Works(cfg, i))
            && (!Fit(b, ns) ==> |Slots(cfg, i + 1)| == n && MayFail(cfg, i))
            && (Fit(b, ns) && Missing(ns, b) != [] ==>
                  |Slots(cfg, i + 1)| == n + 1 && Slots(cfg, i + 1)[n] == Slot(Planned(cfg)[i], Missing(ns, b)[0]))
  {
    hide Planned, Slots, Finds, Listable, NodesOf, Borrowed, Missing;
    var b, ns := Borrowed(cfg, i), NodesOf(cfg, Planned(cfg)[i]);
    SlotCount(cfg, i);
    if b == ns { NoneMissing(ns, b); }
    if Made(cfg, i) != [] { SlotAt(cfg, i, i + 1, |Slots(cfg, i)|); }
  }

  lemma {:induction false} LentOutcome(cfg: Config, h: Cluster, c: Cluster, i: nat, operation: OperationState)
    requires SelectorsSingle(cfg) && Inv(cfg, h) && Inv(cfg, c) && Evolves(h, c)
    requires i < |c.groups| <= |Planned(cfg)| && !c.groups[i].completed
    requires Listable(Planned(cfg)[i]) && !FindsOwn(Planned(cfg)[i]) && LenderDone(cfg, h.groups, i)
    ensures var w := TaskViews(DesiredNodes(cfg.nodes, Planned(cfg)[i]), TasksOf(h.tasks, Planned(cfg)[i]));
            var (g1, create) := GroupStep(operation, c.groups[i], w);
            Suits(cfg, c, i, operation, g1, create, |Slots(cfg, i)|)
  {
    hide Planned, Slots, SelectorsSingle, Finds, GroupStep, TasksOf, Listable, TaskViews, NodesOf, DesiredNodes,
         Evolves, InvOf, SeesBorrowed, Made, Borrowed, TaskOk, GroupOk, Fit, Missing, Works, MayFail, LenderDone;
    var g := c.groups[i];
    LastSpec(cfg, c);
    LaterGroups(cfg, h, c);
    if g.error.Some? { ErrorIsPossible(cfg, c, i); }
    OnlyLastIncomplete(cfg, c, i);
    Bounds(cfg, c);
    var w := GroupSeesLent(cfg, h, i);
    LentDecides(operation, g, w, NodesOf(cfg, Planned(cfg)[i]), Borrowed(cfg, i));
    LentSlots(cfg, i);
  }

  lemma GroupOutcome(cfg: Config, h: Cluster, c: Cluster, i: nat, operation: OperationState) returns (s: nat)
    requires SelectorsSingle(cfg) && Inv(cfg, h) && Inv(cfg, c) && Evolves(h, c)
    requires i < |c.groups| <= |Planned(cfg)| && !c.groups[i].completed
    requires Listable(Planned(cfg)[i]) && LenderDone(cfg, h.groups, i)
    ensures var w := TaskViews(DesiredNodes(cfg.nodes, Planned(cfg)[i]), TasksOf(h.tasks, Planned(cfg)[i]));
            var (g1, create) := GroupStep(operation, c.groups[i], w);
            Suits(cfg, c, i, operation, g1, create, s)
  {
    hide Planned, Slots, SelectorsSingle, GroupStep, TasksOf, Listable, TaskViews, DesiredNodes, Evolves, InvOf,
         FindsOwn, Suits, LenderDone;
    if FindsOwn(Planned(cfg)[i]) {
      s := OwnOutcome(cfg, h, c, i, operation);
    } else {
      LentOutcome(cfg, h, c, i, operation);
      s := |Slots(cfg, i)|;
    }
  }

  lemma GroupStepKeeps(cfg: Config, h: Cluster, c: Cluster, i: nat, operation: OperationState, fault: Fault)
    requires SelectorsSingle(cfg) && Inv(cfg, h) && Inv(cfg, c) && Evolves(h, c)
    requires i < |c.groups| <= |Planned(cfg)| && LenderDone(cfg, h.groups, i)
    ensures Inv(cfg, GroupReconciled(cfg, c, i, operation, h.tasks, fault))
    ensures Evolves(c, GroupReconciled(cfg, c, i, operation, h.tasks, fault))
  {
    hide Planned, Slots, SelectorsSingle, TaskOk, Fits, GroupStep, TasksOf, Listable, Works, MayFail, TaskViews,
         DesiredNodes, TaskName, FindTask, TypedMode, Evolves, InvOf, NewTask, LenderDone;
    SelfEvolves(c);
    LastSpec(cfg, c);
    var g := c.groups[i];
    if !g.completed {
      if g.error.Some? { ErrorIsPossible(cfg, c, i); }
      OnlyLastIncomplete(cfg, c, i);
      PatchLastGroup(cfg, c, g.(paused := operation.paused));
      if !fault.list && Listable(g.spec) {
        var w := TaskViews(DesiredNodes(cfg.nodes, g.spec), TasksOf(h.tasks, g.spec));
        var (g1, create) := GroupStep(operation, g, w);
        var s := GroupOutcome(cfg, h, c, i, operation);
        PatchLastGroup(cfg, c, g1);
        PatchLastGroup(cfg, c, PhasedGroup(g1));
        if create.Some? && !TaskRefused(c, TaskName(g1.spec.name, create.value), fault) {
          CreateTaskKeeps(cfg, c, s, create.value, operation, g1, fault);
        }
      }
    }
  }

  lemma SlotCount(cfg: Config, i: nat)
    requires i < |Planned(cfg)|
    ensures |Slots(cfg, i + 1)| == |Slots(cfg, i)| + |Made(cfg, i)|
  {
    hide Planned, Made;
  }

  /** The group is and stays under way. */
  predicate GoesOn(cfg: Config, i: nat, g: GroupState, g1: GroupState)
    requires i < |Planned(cfg)|
  {
    && g.started && !g.completed && g1.spec == g.spec && GroupOk(g1) && g1.started && !g1.completed
    && (g1.error.Some? ==> MayFail(cfg, i))
  }

  /** Creating the task of slot `s`, the first that an old listing misses: refused if it exists by now. */
  lemma {:induction false} CreateTaskKeeps(
      cfg: Config, c: Cluster, s: nat, node: string, operation: OperationState, g1: GroupState, fault: Fault)
    requires 0 < |c.groups| <= |Planned(cfg)| && Inv(cfg, c)
    requires GoesOn(cfg, |c.groups| - 1, c.groups[|c.groups| - 1], g1)
    requires s <= |c.tasks| && s < |Slots(cfg, |c.groups|)| && Slots(cfg, |c.groups|)[s] == Slot(g1.spec, node)
    requires |c.tasks| == s ==> LastDone(c.tasks)
    requires !TaskRefused(c, TaskName(g1.spec.name, node), fault)
    ensures var k := |c.groups| - 1;
            var t := NewTask(g1.spec, node, TypedMode(operation.mode));
            var d := PatchGroup(c.(tasks := c.tasks + [t]), k, PhasedGroup(g1), fault);
            Inv(cfg, d) && Evolves(c, d)
  {
    hide Planned, Slots, TaskOk, FindTask, TypedMode, InvOf, Evolves, Works, MayFail;
    var k := |c.groups|;
    LastSpec(cfg, c);
    StoredName(cfg, c, s);
    var t := NewTask(g1.spec, node, TypedMode(operation.mode));
    NewTaskOk(g1.spec, node, TypedMode(operation.mode));
    AppendTask(cfg, c, t);
    var e := c.(tasks := c.tasks + [t]);
    PatchLastGroup(cfg, e, PhasedGroup(g1));
    EvolvesTransitive(c, e, e.(groups := c.groups[k - 1 := PhasedGroup(g1)]));
  }

  lemma {:induction false} StoredName(cfg: Config, c: Cluster, s: nat)
    requires |c.groups| <= |Planned(cfg)| && Inv(cfg, c) && s < |Slots(cfg, |c.groups|)|
    ensures var z := Slots(cfg, |c.groups|)[s]; s < |c.tasks| ==> FindTask(c.tasks, TaskName(z.spec.name, z.node)) <= s
  {
    hide Planned, Slots, GroupsInOrder, LastGroup, FindTask, TaskName;
    if s < |c.tasks| { assert Fits(c.tasks[s], Slots(cfg, |c.groups|)[s]); }
  }

  lemma LastSpec(cfg: Config, c: Cluster)
    requires Inv(cfg, c)
    ensures |c.groups| <= |Planned(cfg)|
    ensures forall i :: 0 <= i < |c.groups| ==> c.groups[i].spec == Planned(cfg)[i]
  {
    hide Planned, Slots, TasksInOrder, LastGroup;
  }

  lemma NewTaskOk(spec: GroupSpec, node: string, mode: Mode)
    ensures TaskOk(NewTask(spec, node, mode)) && Fits(NewTask(spec, node, mode), Slot(spec, node))
  {
  }

  lemma TaskStepKeeps(cfg: Config, c: Cluster, i: nat, operation: OperationState, ok: bool, fault: Fault)
    requires Inv(cfg, c) && i < |c.tasks|
    ensures var d := TaskReconciled(c, i, operation, ok, fault);
            Inv(cfg, d) && Evolves(c, d)
  {
    hide Planned, Slots, TaskOk, InvOf, Evolves, TaskStep, RanBy, ResolvedBy, SameTask;
    var u := TaskStep(operation, c.tasks[i], ok);
    StoredTaskOk(cfg, c, i);
    TaskStepKeepsTask(operation, c.tasks[i], ok);
    UpdateTask(cfg, c, i, u);
    SelfEvolves(c);
    OnlyObjectsMatter(cfg, c, c.(tasks := c.tasks[i := u]), TaskReconciled(c, i, operation, ok, fault));
    OnlyObjectsMatter(cfg, c, c, TaskReconciled(c, i, operation, ok, fault));
  }

  lemma StoredTaskOk(cfg: Config, c: Cluster, i: nat)
    requires Inv(cfg, c) && i < |c.tasks|
    ensures TaskOk(c.tasks[i])
  {
    hide Planned, Slots, GroupsInOrder, LastGroup, Fits;
  }

  /** The invariant and the growth order do not look at the daemon set or the histories. */
  lemma OnlyObjectsMatter(cfg: Config, c: Cluster, d: Cluster, e: Cluster)
    requires Inv(cfg, d) && Evolves(c, d)
    ensures d.operation == e.operation && d.groups == e.groups && d.tasks == e.tasks ==> Inv(cfg, e) && Evolves(c, e)
  {
    hide InvOf, GroupsEvolve, TasksEvolve;
  }

  lemma RecoveredKeeps(mode: Mode, t: TaskState)
    requires TaskOk(t) && !t.completed && Recovers(t)
    ensures TaskOk(Recovered(mode, t)) && SameTask(t, Recovered(mode, t)) && Recovered(mode, t).started
  {
    hide TypedRecovery;
  }

  lemma NormalKeeps(mode: Mode, t: TaskState, ok: bool)
    requires TaskOk(t) && !t.completed
    ensures TaskOk(TaskNormal(mode, t, ok)) && SameTask(t, TaskNormal(mode, t, ok))
  {
  }

  lemma TaskStepKeepsTask(operation: OperationState, t: TaskState, ok: bool)
    requires TaskOk(t)
    ensures TaskOk(TaskStep(operation, t, ok)) && SameTask(t, TaskStep(operation, t, ok))
    ensures t.completed ==> TaskStep(operation, t, ok) == t
  {
    hide TypedRecovery, TypedMode, Recovered, TaskNormal;
    if !t.completed {
      var mode := TypedMode(operation.mode);
      if Recovers(t) { RecoveredKeeps(mode, t); } else { NormalKeeps(mode, t.(paused := operation.paused), ok); }
    }
  }

  /** The list a reconcile decides on was stored in `h`. */
  ghost predicate ReadsListOf(h: Cluster, e: Event)
  {
    match e
    case ReconcileOperation(groups, _) => groups == h.groups
    case ReconcileGroup(_, _, tasks, _) => tasks == h.tasks
    case _ => true
  }

  /**
   * A group that takes the tasks of an earlier group for its own decides on a list of tasks from after that group was
   * completed.
   */
  predicate Timely(cfg: Config, c: Cluster, h: Cluster, e: Event)
  {
    match e
    case ReconcileGroup(name, _, _, _) =>
      var i := FindGroup(c.groups, name);
      i < |c.groups| && i < |Planned(cfg)| ==> LenderDone(cfg, h.groups, i)
    case _ => true
  }

  /** Every step keeps the invariant and only adds, when it decides on a list stored now or earlier. */
  lemma StepKeeps(cfg: Config, h: Cluster, c: Cluster, e: Event)
    requires SelectorsSingle(cfg) && Inv(cfg, h) && Inv(cfg, c) && Evolves(h, c)
    requires ReadsListOf(h, e) && Timely(cfg, c, h, e)
    ensures Inv(cfg, Next(cfg, c, e)) && Evolves(c, Next(cfg, c, e))
  {
    hide Planned, InvOf, SelectorsSingle, OperationReconciled, GroupReconciled, TaskReconciled, LenderDone, Evolves,
         FindGroup, FindTask;
    SelfEvolves(c);
    LastSpec(cfg, c);
    match e
    case ReconcileOperation(groups, fault) => OperationStepKeeps(cfg, h, c, fault);
    case ReconcileGroup(name, operation, tasks, fault) =>
      var i := FindGroup(c.groups, name);
      if i < |c.groups| { GroupStepKeeps(cfg, h, c, i, operation, fault); }
    case ReconcileTask(agent, name, operation, ok, fault) =>
      var i := FindTask(c.tasks, name);
      if i < |c.tasks| && c.tasks[i].node == agent { TaskStepKeeps(cfg, c, i, operation, ok, fault); }
    case SetPaused(paused) => SetPausedKeeps(cfg, c, paused);
    case SetRecovery(name, mode) =>
      var i := FindTask(c.tasks, name);
      if i < |c.tasks| {
        StoredTaskOk(cfg, c, i);
        UpdateTask(cfg, c, i, c.tasks[i].(recovery := mode));
      }
  }

  lemma SetPausedKeeps(cfg: Config, c: Cluster, paused: bool)
    requires Inv(cfg, c)
    ensures var d := c.(operation := c.operation.(specPaused := paused));
            Inv(cfg, d) && Evolves(c, d)
  {
    hide Planned, Slots, GroupsInOrder, TasksInOrder, LastGroup;
  }

  // ---- runs ----

  lemma InitialInv(cfg: Config, c: Cluster)
    requires Initial(c)
    ensures Inv(cfg, c)
  {
  }

  /** The list a reconcile decides on was stored at some moment of the past, and not too early. */
  ghost predicate ReadsInTime(cfg: Config, past: seq<Cluster>, c: Cluster, e: Event)
  {
    exists h <- past :: ReadsListOf(h, e) && Timely(cfg, c, h, e)
  }

  /**
   * A run in which a group that takes the tasks of an earlier group for its own reads no list of tasks from before that
   * group was completed.
   */
  ghost predicate ProperRun(cfg: Config, states: seq<Cluster>, events: seq<Event>)
  {
    && SelectorsSingle(cfg) && IsRun(cfg, states, events)
    && forall k :: 0 <= k < |events| ==> ReadsInTime(cfg, states[..k + 1], states[k], events[k])
  }

  /** No group takes the tasks of an earlier group for its own. */
  ghost predicate NoneBorrows(cfg: Config)
  {
    var p := Planned(cfg);
    forall i, j :: 0 <= j < i < |p| ==> !Finds(p[i], p[j].labels)
  }

  lemma EveryRunIsProper(cfg: Config, states: seq<Cluster>, events: seq<Event>)
    requires SelectorsSingle(cfg) && NoneBorrows(cfg) && IsRun(cfg, states, events)
    ensures ProperRun(cfg, states, events)
  {
    hide Planned, Next, SelectorsSingle, FindGroup, Finds, Initial;
    forall k | 0 <= k < |events| ensures ReadsInTime(cfg, states[..k + 1], states[k], events[k]) {
      assert Reads(states[..k + 1], events[k]);
      var m := ListRead(states[..k + 1], events[k]);
      assert Timely(cfg, states[k], states[..k + 1][m], events[k]);
    }
  }

  /** The lender of a group that exists is completed. */
  lemma LenderIsDone(cfg: Config, c: Cluster, i: nat)
    requires Inv(cfg, c) && i < |c.groups| <= |Planned(cfg)|
    ensures LenderDone(cfg, c.groups, i)
  {
    hide Planned, Slots, TasksInOrder, LastGroup, Works, MayFail;
  }

  /** So what is stored now can be read in time. */
  lemma FreshIsTimely(cfg: Config, c: Cluster, e: Event)
    requires Inv(cfg, c)
    ensures Timely(cfg, c, c, e)
  {
    hide Planned, InvOf, LenderDone;
    if e.ReconcileGroup? {
      var i := FindGroup(c.groups, e.name);
      if i < |c.groups| && i < |Planned(cfg)| {
        LastSpec(cfg, c);
        LenderIsDone(cfg, c, i);
      }
    }
  }

  lemma IsRunPrefix(cfg: Config, states: seq<Cluster>, events: seq<Event>)
    requires IsRun(cfg, states, events) && events != []
    ensures IsRun(cfg, states[..|events|], events[..|events| - 1])
  {
    hide Next, Reads, Initial;
    var s, v := states[..|events|], events[..|events| - 1];
    forall i | 0 <= i < |v| ensures Reads(s[..i + 1], v[i]) && s[i + 1] == Next(cfg, s[i], v[i]) {
      assert s[..i + 1] == states[..i + 1];
    }
  }

  lemma RunPrefix(cfg: Config, states: seq<Cluster>, events: seq<Event>)
    requires ProperRun(cfg, states, events) && events != []
    ensures ProperRun(cfg, states[..|events|], events[..|events| - 1])
  {
    hide Planned, IsRun, SelectorsSingle, ReadsInTime;
    RunLength(cfg, states, events);
    var s, v := states[..|events|], events[..|events| - 1];
    IsRunPrefix(cfg, states, events);
    forall i | 0 <= i < |v| ensures ReadsInTime(cfg, s[..i + 1], s[i], v[i]) {
      assert s[..i + 1] == states[..i + 1];
      assert ReadsInTime(cfg, states[..i + 1], states[i], events[i]);
    }
  }

  lemma RunLength(cfg: Config, states: seq<Cluster>, events: seq<Event>)
    requires IsRun(cfg, states, events)
    ensures |states| == |events| + 1
  {
  }

  /** Every state of a run satisfies the invariant, and the past only evolves. */
  lemma {:induction false} RunKeeps(cfg: Config, states: seq<Cluster>, events: seq<Event>)
    requires ProperRun(cfg, states, events)
    ensures forall i :: 0 <= i <= |events| ==> Inv(cfg, states[i])
    ensures forall i, j :: 0 <= i <= j <= |events| ==> Evolves(states[i], states[j])
  {
    hide Planned, InvOf, Evolves, Next, SelectorsSingle, Timely, Reads, ReadsInTime, ReadsListOf, Initial;
    if events == [] {
      SelfEvolves(states[0]);
      InitialInv(cfg, states[0]);
    } else {
      var n := |events| - 1;
      RunPrefix(cfg, states, events);
      var past := states[..n + 1];
      RunKeeps(cfg, past, events[..n]);
      assert past[n] == states[n];
      var m := ReadInTime(cfg, past, states[n], events[n]);
      StepKeeps(cfg, past[m], states[n], events[n]);
      SelfEvolves(states[n + 1]);
      forall i | 0 <= i <= n ensures Evolves(states[i], states[n + 1]) {
        assert past[i] == states[i];
        EvolvesTransitive(states[i], states[n], states[n + 1]);
      }
      forall i, j | 0 <= i <= j <= n ensures Evolves(states[i], states[j]) {
        assert past[i] == states[i] && past[j] == states[j];
      }
      forall i | 0 <= i <= n ensures Inv(cfg, states[i]) { assert past[i] == states[i]; }
    }
  }

  lemma ReadInTime(cfg: Config, past: seq<Cluster>, c: Cluster, e: Event) returns (m: nat)
    requires ReadsInTime(cfg, past, c, e)
    ensures m < |past| && ReadsListOf(past[m], e) && Timely(cfg, c, past[m], e)
  {
    hide Timely, ReadsListOf;
    var h :| h in past && ReadsListOf(h, e) && Timely(cfg, c, h, e);
    m :| m < |past| && past[m] == h;
  }

  lemma ListRead(past: seq<Cluster>, e: Event) returns (m: nat)
    requires past != [] && Reads(past, e)
    ensures m < |past| && ReadsListOf(past[m], e)
  {
    match e
    case ReconcileOperation(groups, _) =>
      var h :| h in past && h.groups == groups;
      m :| m < |past| && past[m] == h;
    case ReconcileGroup(_, _, tasks, _) =>
      var h :| h in past && h.tasks == tasks;
      m :| m < |past| && past[m] == h;
    case _ => m := 0;
  }
}
