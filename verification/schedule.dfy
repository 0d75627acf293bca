/** The order that the plan and the node names impose: groups by name, nodes by name. */
module Schedule {
  import opened Names
  import opened Api
  import opened Matching
  import opened Machine

  /** The planned groups, ascending by name; of two with one name the later one is kept. */
  function Planned(cfg: Config): (p: seq<GroupSpec>)
    ensures StrictlyAscending(SpecNames(p))
  {
    var names := SortNames(SpecNames(cfg.desired));
    var p := seq(|names|, i requires 0 <= i < |names| =>
                   (LastPlannedFound(cfg.desired, names[i]); LastPlanned(cfg.desired, names[i]).value));
    assert SpecNames(p) == names by {
      forall i | 0 <= i < |names| ensures p[i].name == names[i] { LastPlannedFound(cfg.desired, names[i]); }
    }
    p
  }

  /** The nodes of a group, ascending by name. */
  function NodesOf(cfg: Config, spec: GroupSpec): (r: seq<string>)
    ensures StrictlyAscending(r)
  {
    SortNames(NodeNames(DesiredNodes(cfg.nodes, spec)))
  }

  // ---- whose tasks a group takes for its own ----

  /** The selector of a group finds tasks with these labels. */
  predicate Finds(spec: GroupSpec, labels: Labels)
  {
    var wanted := SelectorMap(spec.selector);
    wanted.Some? && MatchesLabels(wanted.value, labels)
  }

  predicate FindsOwn(spec: GroupSpec) { Finds(spec, spec.labels) }

  /** The selector of a planned group finds the tasks of one planned group at most. */
  ghost predicate SelectorsSingle(cfg: Config)
  {
    var p := Planned(cfg);
    forall i, j, l :: 0 <= i < |p| && 0 <= j < |p| && 0 <= l < |p| ==>
      Finds(p[i], p[j].labels) && Finds(p[i], p[l].labels) ==> j == l
  }

  /** The first of the first `k` planned groups whose tasks group `i` finds; `k` if there is none. */
  function Lender(cfg: Config, i: nat, k: nat): (j: nat)
    requires i < |Planned(cfg)| && k <= |Planned(cfg)|
    ensures j <= k
    ensures j < k ==> Finds(Planned(cfg)[i], Planned(cfg)[j].labels)
    ensures forall l :: 0 <= l < j ==> !Finds(Planned(cfg)[i], Planned(cfg)[l].labels)
  {
    if k == 0 then 0
    else
      var j := Lender(cfg, i, k - 1);
      if j < k - 1 || Finds(Planned(cfg)[i], Planned(cfg)[k - 1].labels) then j else k
  }

  /** The names of `ns` that are not in `seen`, in order. */
  function Missing(ns: seq<string>, seen: seq<string>): (r: seq<string>)
    ensures forall x :: x in r <==> x in ns && x !in seen
  {
    if ns == [] then []
    else if ns[0] in seen then Missing(ns[1..], seen)
    else [ns[0]] + Missing(ns[1..], seen)
  }

  predicate Fit(seen: seq<string>, ns: seq<string>) { forall x <- seen :: x in ns }

  /** The nodes with a task of the earlier group, if any, whose tasks group `i` takes for its own. */
  function Borrowed(cfg: Config, i: nat): (r: seq<string>)
    requires i < |Planned(cfg)|
    ensures StrictlyAscending(r)
    decreases i, 0
  {
    var j := Lender(cfg, i, i);
    if j < i then Made(cfg, j) else []
  }

  /**
   * The nodes on which group `i` makes a task. A group that finds its own tasks: all its nodes. One that does not:
   * none if the tasks it finds are elsewhere too, or on all its nodes already; and else the first node without, which
   * it never gets past.
   */
  function Made(cfg: Config, i: nat): (r: seq<string>)
    requires i < |Planned(cfg)|
    ensures StrictlyAscending(r) && forall x <- r :: x in NodesOf(cfg, Planned(cfg)[i])
    decreases i, 1
  {
    var p := Planned(cfg)[i];
    var ns := NodesOf(cfg, p);
    if !Listable(p) then []
    else if FindsOwn(p) then ns
    else if !Fit(Borrowed(cfg, i), ns) then []
    else
      var m := Missing(ns, Borrowed(cfg, i));
      if m == [] then [] else [m[0]]
  }

  /** Group `i` can be completed: it finds its own tasks, or tasks of an earlier group on exactly its nodes. */
  predicate Works(cfg: Config, i: nat)
    requires i < |Planned(cfg)|
  {
    var p := Planned(cfg)[i];
    Listable(p) && (FindsOwn(p) || Borrowed(cfg, i) == NodesOf(cfg, p))
  }

  ghost predicate SelectorsWork(cfg: Config)
  {
    forall i :: 0 <= i < |Planned(cfg)| ==> Works(cfg, i)
  }

  /** Group `i` can have an error: from a task of its own, or from a task on a node that is not its own. */
  predicate MayFail(cfg: Config, i: nat)
    requires i < |Planned(cfg)|
  {
    var p := Planned(cfg)[i];
    Listable(p) && (FindsOwn(p) || !Fit(Borrowed(cfg, i), NodesOf(cfg, p)))
  }

  lemma {:induction false} MissingHead(ns: seq<string>, seen: seq<string>) returns (k: nat)
    requires Missing(ns, seen) != []
    ensures k < |ns| && ns[k] == Missing(ns, seen)[0] && ns[k] !in seen && forall l :: 0 <= l < k ==> ns[l] in seen
  {
    if ns[0] in seen { var l := MissingHead(ns[1..], seen); k := l + 1; } else { k := 0; }
  }

  /** Names that fit miss none exactly if they are all. */
  lemma {:induction false} NoneMissing(ns: seq<string>, seen: seq<string>)
    requires StrictlyAscending(ns) && StrictlyAscending(seen) && Fit(seen, ns)
    ensures Missing(ns, seen) == [] <==> seen == ns
  {
    if Missing(ns, seen) == [] {
      forall x ensures x in ns <==> x in seen { assert x !in Missing(ns, seen); }
      AscendingUnique(ns, seen);
    } else {
      assert Missing(ns, seen)[0] in Missing(ns, seen);
    }
  }

  // ---- slots ----

  datatype Slot = Slot(spec: GroupSpec, node: string)

  function SlotsOn(spec: GroupSpec, ns: seq<string>): (r: seq<Slot>)
    ensures |r| == |ns| && forall k :: 0 <= k < |r| ==> r[k] == Slot(spec, ns[k])
  {
    seq(|ns|, k requires 0 <= k < |ns| => Slot(spec, ns[k]))
  }

  /** The tasks that group `i` makes. */
  function SlotsOf(cfg: Config, i: nat): (r: seq<Slot>)
    requires i < |Planned(cfg)|
    ensures |r| == |Made(cfg, i)|
    ensures forall k :: 0 <= k < |r| ==> r[k] == Slot(Planned(cfg)[i], Made(cfg, i)[k])
  {
    SlotsOn(Planned(cfg)[i], Made(cfg, i))
  }

  /** The (group, node) pairs of the first `k` planned groups, in order. */
  function Slots(cfg: Config, k: nat): seq<Slot>
    requires k <= |Planned(cfg)|
  {
    if k == 0 then [] else Slots(cfg, k - 1) + SlotsOf(cfg, k - 1)
  }

  function AllSlots(cfg: Config): seq<Slot> { Slots(cfg, |Planned(cfg)|) }

  lemma {:induction false} SlotsPrefix(cfg: Config, i: nat, k: nat)
    requires i <= k <= |Planned(cfg)|
    ensures Slots(cfg, i) <= Slots(cfg, k)
  {
    hide Planned, SlotsOf, Slots;
    if i < k {
      SlotsPrefix(cfg, i, k - 1);
      SlotsStep(cfg, k);
    }
  }

  lemma SlotsStep(cfg: Config, k: nat)
    requires 0 < k <= |Planned(cfg)|
    ensures Slots(cfg, k) == Slots(cfg, k - 1) + SlotsOf(cfg, k - 1)
  {
  }

  /** Slot `j` belongs to planned group `i` exactly when it lies between the slots before and after that group. */
  lemma {:induction false} SlotAt(cfg: Config, i: nat, k: nat, j: nat)
    requires i < k <= |Planned(cfg)|
    requires |Slots(cfg, i)| <= j < |Slots(cfg, i + 1)|
    ensures j < |Slots(cfg, k)|
    ensures Slots(cfg, k)[j] == Slot(Planned(cfg)[i], Made(cfg, i)[j - |Slots(cfg, i)|])
  {
    hide Planned, Made, Slots;
    SlotsPrefix(cfg, i + 1, k);
    SlotsStep(cfg, i + 1);
    assert Slots(cfg, k)[j] == Slots(cfg, i + 1)[j];
  }

  lemma {:induction false} SlotGroup(cfg: Config, k: nat, j: nat) returns (i: nat)
    requires k <= |Planned(cfg)| && j < |Slots(cfg, k)|
    ensures i < k && |Slots(cfg, i)| <= j < |Slots(cfg, i + 1)|
    ensures Slots(cfg, k)[j].spec == Planned(cfg)[i]
  {
    hide Planned, Made;
    if j < |Slots(cfg, k - 1)| {
      i := SlotGroup(cfg, k - 1, j);
      SlotAt(cfg, i, k, j);
    } else {
      i := k - 1;
    }
  }

  // ---- what the matchers return when the objects found are a front of the plan ----

  /** Completed items, then at most one other existing item at position `r - 1`, then items to be created. */
  ghost predicate Front<T>(cls: T -> View, all: seq<T>, r: nat)
  {
    && r <= |all|
    && (forall j :: 0 <= j < r - 1 ==> cls(all[j]) == Completed)
    && (forall j :: r <= j < |all| ==> cls(all[j]) == ToBeCreated)
    && (r > 0 ==> cls(all[r - 1]) != ToBeCreated && cls(all[r - 1]) != Invalid)
  }

  lemma FrontViews<T>(cls: T -> View, all: seq<T>, r: nat)
    requires Front(cls, all, r)
    ensures var w := Derive(cls, all);
            && |w.invalid| == 0
            && (|w.completed| == |w.all| <==> r == |all| && (r > 0 ==> cls(all[r - 1]) == Completed))
            && (w.Active() > 0 <==> r > 0 && (cls(all[r - 1]) == Pending || cls(all[r - 1]) == Running))
            && (|w.failed| > 0 <==> r > 0 && cls(all[r - 1]) == Failed)
            && (|w.tobeCreated| > 0 <==> r < |all|)
            && (r < |all| ==> w.tobeCreated[0] == all[r])
  {
    PickNone(cls, Invalid, all);
    PickAll(cls, Completed, all);
    PickNone(cls, Pending, all);
    PickNone(cls, Running, all);
    PickNone(cls, Failed, all);
    PickNone(cls, ToBeCreated, all);
    if r < |all| { PickHead(cls, ToBeCreated, all, r); }
  }

  /** Tasks on the first nodes by name: every item is a node, with its task if there is one. */
  lemma MatchTasksFront(nodes: seq<Node>, tasks: seq<TaskState>)
    requires var ns := SortNames(NodeNames(nodes));
             |tasks| <= |ns| && forall j :: 0 <= j < |tasks| ==> tasks[j].node == ns[j]
    ensures var ns := SortNames(NodeNames(nodes));
            var all := MatchTasks(nodes, tasks);
            |all| == |ns| && forall j :: 0 <= j < |ns| ==>
              all[j].name == ns[j] && all[j].node.Some? && all[j].tasks == if j < |tasks| then [tasks[j]] else []
  {
    var ns := SortNames(NodeNames(nodes));
    SortNamesSame(NodeNames(nodes) + TaskNodes(tasks), NodeNames(nodes));
    forall a, b | 0 <= a < b < |tasks| ensures tasks[a].node != tasks[b].node { LessIrreflexive(ns[a]); }
    forall j | 0 <= j < |ns|
      ensures LastNode(nodes, ns[j]).Some? && TasksOn(tasks, ns[j]) == if j < |tasks| then [tasks[j]] else []
    {
      LastNodeFound(nodes, ns[j]);
      if j < |tasks| {
        TasksOnSingle(tasks, j);
      } else {
        TasksOnMembers(tasks, ns[j]);
        forall a | 0 <= a < |tasks| ensures TaskNodes(tasks)[a] != ns[j] { LessIrreflexive(ns[j]); }
      }
    }
  }

  /** The first planned groups exist: every item is planned, with its group if there is one. */
  lemma MatchGroupsFront(cfg: Config, groups: seq<GroupState>)
    requires |groups| <= |Planned(cfg)| && forall j :: 0 <= j < |groups| ==> groups[j].spec == Planned(cfg)[j]
    ensures var p := Planned(cfg);
            var all := MatchGroups(cfg.desired, groups);
            |all| == |p| && forall j :: 0 <= j < |p| ==>
              all[j] == GroupItem(p[j].name, Some(p[j]), if j < |groups| then Some(groups[j]) else None)
  {
    var p := Planned(cfg);
    var names := SortNames(SpecNames(cfg.desired));
    forall j | 0 <= j < |p| ensures p[j].name == names[j] && LastPlanned(cfg.desired, names[j]) == Some(p[j]) {
      LastPlannedFound(cfg.desired, names[j]);
    }
    forall j | 0 <= j < |groups| ensures GroupNames(groups)[j] in SpecNames(cfg.desired) {
      assert names[j] in names;
    }
    SortNamesSame(SpecNames(cfg.desired) + GroupNames(groups), SpecNames(cfg.desired));
    forall a, b | 0 <= a < b < |groups| ensures groups[a].spec.name != groups[b].spec.name {
      LessIrreflexive(names[a]);
    }
    forall j | 0 <= j < |p|
      ensures LastCurrent(groups, names[j]) == if j < |groups| then Some(groups[j]) else None
    {
      if j < |groups| {
        LastCurrentAt(groups, j);
      } else {
        LastCurrentFound(groups, names[j]);
        forall a | 0 <= a < |groups| ensures GroupNames(groups)[a] != names[j] { LessIrreflexive(names[j]); }
      }
    }
  }

  lemma TasksOfRange(tasks: seq<TaskState>, spec: GroupSpec, n: nat, m: nat)
    requires n <= m <= |tasks|
    requires forall j :: 0 <= j < |tasks| ==> (Finds(spec, tasks[j].labels) <==> n <= j < m)
    ensures TasksOf(tasks, spec) == tasks[n..m]
  {
    hide MatchesLabels, SelectorMap;
    match SelectorMap(spec.selector)
    case Some(wanted) => ListTasksRange(tasks, wanted, n, m);
    case None => assert n < m ==> Finds(spec, tasks[n].labels);
  }

  lemma {:induction false} ListTasksRange(tasks: seq<TaskState>, selector: Labels, n: nat, m: nat)
    requires n <= m <= |tasks|
    requires forall j :: 0 <= j < |tasks| ==> (MatchesLabels(selector, tasks[j].labels) <==> n <= j < m)
    ensures ListTasks(tasks, selector) == tasks[n..m]
  {
    if tasks != [] {
      var t, z := tasks[..|tasks| - 1], tasks[|tasks| - 1];
      if m == |tasks| {
        if n == m {
          ListTasksRange(t, selector, |t|, |t|);
        } else {
          ListTasksRange(t, selector, n, |t|);
          assert t[n..|t|] + [z] == tasks[n..m];
        }
      } else {
        ListTasksRange(t, selector, n, m);
      }
    }
  }

  // ---- what the matchers return when the tasks found are those of another group ----

  /** What a group sees that finds completed tasks on the nodes `seen`, none of them its own. */
  ghost predicate SeesBorrowed(w: Views<TaskItem>, ns: seq<string>, seen: seq<string>)
  {
    && w.Active() == 0 && |w.failed| == 0 && (|w.invalid| == 0 <==> Fit(seen, ns))
    && (Fit(seen, ns) ==> |w.all| == |ns| && (|w.completed| == |w.all| <==> seen == ns))
    && (Fit(seen, ns) && seen != ns ==>
          |w.tobeCreated| > 0 && Missing(ns, seen) != [] && w.tobeCreated[0].name == Missing(ns, seen)[0])
  }

  lemma BorrowedItems(nodes: seq<Node>, list: seq<TaskState>, i: nat)
    requires forall j :: 0 <= j < |list| ==> list[j].completed && list[j].error.None?
    requires StrictlyAscending(TaskNodes(list)) && i < |MatchTasks(nodes, list)|
    ensures var x := MatchTasks(nodes, list)[i];
            var has := x.name in NodeNames(nodes);
            && x.name == SortNames(NodeNames(nodes) + TaskNodes(list))[i]
            && TaskClass(x) == if !has then Invalid else if x.name in TaskNodes(list) then Completed else ToBeCreated
  {
    hide TypedRecovery, SortNames, TaskNodes, NodeNames;
    var name := SortNames(NodeNames(nodes) + TaskNodes(list))[i];
    LastNodeFound(nodes, name);
    TasksOnMembers(list, name);
    if name in TaskNodes(list) {
      var j :| 0 <= j < |list| && TaskNodes(list)[j] == name;
      forall a, b | 0 <= a < b < |list| ensures list[a].node != list[b].node {
        LessIrreflexive(list[a].node);
        assert Less(TaskNodes(list)[a], TaskNodes(list)[b]);
      }
      TasksOnSingle(list, j);
    }
  }

  /**
   * One item for every name: completed for a name in `seen` only if it is in `ns` too, and to be created if it is not
   * in `seen`.
   */
  ghost predicate BorrowedAll(all: seq<TaskItem>, names: seq<string>, ns: seq<string>, seen: seq<string>)
  {
    |all| == |names| && forall i :: 0 <= i < |all| ==>
      all[i].name == names[i]
      && TaskClass(all[i]) == if names[i] !in ns then Invalid else if names[i] in seen then Completed else ToBeCreated
  }

  lemma BorrowedFront(nodes: seq<Node>, list: seq<TaskState>)
    requires forall j :: 0 <= j < |list| ==> list[j].completed && list[j].error.None?
    requires StrictlyAscending(TaskNodes(list))
    ensures SeesBorrowed(TaskViews(nodes, list), SortNames(NodeNames(nodes)), TaskNodes(list))
  {
    hide TaskClass, SortNames, TaskNodes, NodeNames, MatchTasks, SeesBorrowed, Fit;
    var ns, seen, all := SortNames(NodeNames(nodes)), TaskNodes(list), MatchTasks(nodes, list);
    var names := SortNames(NodeNames(nodes) + seen);
    ItemPerName(nodes, list);
    forall i | 0 <= i < |all|
      ensures all[i].name == names[i]
      ensures TaskClass(all[i]) ==
                if names[i] !in ns then Invalid else if names[i] in seen then Completed else ToBeCreated
    {
      BorrowedItems(nodes, list, i);
    }
    forall x ensures x in names <==> x in ns || x in seen {}
    if Fit(seen, ns) { FitNames(nodes, seen); }
    BorrowedViews(all, names, ns, seen);
  }

  lemma {:induction false} FitNames(nodes: seq<Node>, seen: seq<string>)
    requires Fit(seen, SortNames(NodeNames(nodes)))
    ensures SortNames(NodeNames(nodes) + seen) == SortNames(NodeNames(nodes))
  {
    hide SortNames, NodeNames;
    SortNamesSame(NodeNames(nodes) + seen, NodeNames(nodes));
  }

  lemma BorrowedViews(all: seq<TaskItem>, names: seq<string>, ns: seq<string>, seen: seq<string>)
    requires BorrowedAll(all, names, ns, seen) && forall x :: x in names <==> x in ns || x in seen
    requires StrictlyAscending(ns) && StrictlyAscending(seen) && (Fit(seen, ns) ==> names == ns)
    ensures SeesBorrowed(Derive(TaskClass, all), ns, seen)
  {
    hide TaskClass, StrictlyAscending, Pick;
    PickNone(TaskClass, Pending, all);
    PickNone(TaskClass, Running, all);
    PickNone(TaskClass, Failed, all);
    PickNone(TaskClass, Invalid, all);
    PickAll(TaskClass, Completed, all);
    if Fit(seen, ns) {
      BorrowedFits(all, ns, seen);
    } else {
      var x :| x in seen && x !in ns;
      var i :| 0 <= i < |names| && names[i] == x;
      assert TaskClass(all[i]) == Invalid;
    }
  }

  lemma {:induction false} BorrowedFits(all: seq<TaskItem>, ns: seq<string>, seen: seq<string>)
    requires BorrowedAll(all, ns, ns, seen) && Fit(seen, ns) && StrictlyAscending(ns) && StrictlyAscending(seen)
    ensures (forall i :: 0 <= i < |all| ==> TaskClass(all[i]) == Completed) <==> seen == ns
    ensures var w := Derive(TaskClass, all);
            seen != ns ==>
              |w.tobeCreated| > 0 && Missing(ns, seen) != [] && w.tobeCreated[0].name == Missing(ns, seen)[0]
  {
    hide TaskClass, StrictlyAscending, Pick;
    NoneMissing(ns, seen);
    if seen == ns {
      forall i | 0 <= i < |all| ensures TaskClass(all[i]) == Completed { assert ns[i] in ns; }
    } else {
      var k := MissingHead(ns, seen);
      assert ns[k] in ns && TaskClass(all[k]) == ToBeCreated;
      forall l | 0 <= l < k ensures TaskClass(all[l]) != ToBeCreated { assert ns[l] in seen; }
      PickHead(TaskClass, ToBeCreated, all, k);
    }
  }

  lemma ItemPerName(nodes: seq<Node>, list: seq<TaskState>)
    ensures |MatchTasks(nodes, list)| == |SortNames(NodeNames(nodes) + TaskNodes(list))|
    ensures TaskViews(nodes, list) == Derive(TaskClass, MatchTasks(nodes, list))
  {
  }
}
