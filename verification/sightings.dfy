/** What a controller finds among the names it has met, said of the stored objects themselves. */
module Sightings {
  import opened Names
  import opened Api
  import opened Matching
  import opened Machine
  import opened Safety

  // ---- lists of views ----

  function ViewOf<T>(w: Views<T>, v: View): seq<T>
  {
    match v
    case ToBeCreated => w.tobeCreated
    case Pending => w.pending
    case Running => w.running
    case Completed => w.completed
    case Failed => w.failed
    case Invalid => w.invalid
  }

  ghost function NamesIn<T>(key: T -> string, l: seq<T>): set<string> { set x <- l :: key(x) }

  lemma NamesInNext<T>(key: T -> string, t: seq<T>, z: T)
    ensures NamesIn(key, t + [z]) == NamesIn(key, t) + {key(z)}
  {
    forall n ensures n in NamesIn(key, t + [z]) <==> n in NamesIn(key, t) + {key(z)} {
      if x :| x in t && key(x) == n { assert x in t + [z]; }
      assert z in t + [z];
    }
  }

  lemma LastIsNew<T>(key: T -> string, t: seq<T>, z: T)
    requires AscendingBy(key, t + [z])
    ensures key(z) !in NamesIn(key, t)
  {
    hide Less;
    forall x | x in t ensures key(x) != key(z) {
      var i :| 0 <= i < |t| && t[i] == x;
      var l := t + [z];
      assert Less(key(l[i]), key(l[|t|]));
      LessIrreflexive(key(z));
    }
  }

  /** As many items as names, if the names ascend. */
  lemma {:induction false} AscendingSize<T>(key: T -> string, l: seq<T>)
    requires AscendingBy(key, l)
    ensures |NamesIn(key, l)| == |l|
  {
    hide Less;
    if l != [] {
      var t, z := l[..|l| - 1], l[|l| - 1];
      assert l == t + [z];
      assert AscendingBy(key, t);
      AscendingSize(key, t);
      NamesInNext(key, t, z);
      LastIsNew(key, t, z);
    }
  }

  /** The first of these names. */
  ghost predicate First(s: set<string>, n: string)
  {
    n in s && forall m <- s :: m != n ==> Less(n, m)
  }

  lemma FirstOfAscending<T>(key: T -> string, l: seq<T>)
    requires AscendingBy(key, l) && l != []
    ensures First(NamesIn(key, l), key(l[0]))
  {
    forall m | m in NamesIn(key, l) && m != key(l[0]) ensures Less(key(l[0]), m) {
      var i :| 0 <= i < |l| && key(l[i]) == m;
    }
  }

  lemma {:induction false} PickMembers<T>(cls: T -> View, v: View, s: seq<T>, x: T)
    ensures x in Pick(cls, v, s) <==> x in s && cls(x) == v
  {
    hide Pick;
    PickMultiset(cls, v, s, x);
    assert x in Pick(cls, v, s) <==> multiset(Pick(cls, v, s))[x] > 0;
    assert x in s <==> multiset(s)[x] > 0;
  }

  lemma {:induction false} ViewIsPick<T>(cls: T -> View, all: seq<T>, v: View)
    ensures ViewOf(Derive(cls, all), v) == Pick(cls, v, all)
  {
  }

  /** A view of a list with ascending names: its names are those of the items of its class, each once. */
  lemma ViewNames<T>(cls: T -> View, key: T -> string, all: seq<T>, v: View)
    requires AscendingBy(key, all)
    ensures var l := ViewOf(Derive(cls, all), v);
            && AscendingBy(key, l) && |NamesIn(key, l)| == |l|
            && (forall n :: n in NamesIn(key, l) <==> exists x <- all :: key(x) == n && cls(x) == v)
  {
    hide Less, Pick, Derive, AscendingBy;
    var l := ViewOf(Derive(cls, all), v);
    ViewIsPick(cls, all, v);
    ViewsAscending(cls, v, key, all);
    AscendingSize(key, l);
    forall x ensures x in l <==> x in all && cls(x) == v { PickMembers(cls, v, all, x); }
  }

  // ---- what a node of a group stands for ----

  /** The user has chosen one of the two ways out that there are. */
  predicate Chosen(recovery: string) { recovery == "RetryFailedCommand" || recovery == "SkipFailedCommand" }

  predicate Stuck(t: TaskState) { t.error.Some? && !Chosen(t.recovery) }

  lemma StuckIsFailed(t: TaskState)
    ensures Stuck(t) == IsFailed(t)
  {
  }

  /** Task `j` is on node `n`, and no other is. */
  predicate OnlyTask(tasks: seq<TaskState>, n: string, j: int)
  {
    0 <= j < |tasks| && tasks[j].node == n && forall l :: 0 <= l < |tasks| && tasks[l].node == n ==> l == j
  }

  /** How far a task is that is the only one of its node. */
  predicate TaskStands(v: View, t: TaskState)
  {
    match v
    case Failed => Stuck(t)
    case Completed => !Stuck(t) && t.completed
    case Running => !Stuck(t) && !t.completed && t.started
    case Pending => !Stuck(t) && !t.completed && !t.started
    case _ => false
  }

  /** What a name stands for, among the nodes wanted and the tasks found. */
  ghost predicate NodeStands(v: View, nodes: seq<Node>, tasks: seq<TaskState>, n: string)
  {
    match v
    case ToBeCreated => n in NodeNames(nodes) && n !in TaskNodes(tasks)
    case Invalid =>
      n in TaskNodes(tasks) && (n !in NodeNames(nodes) || exists a, b :: TwoTasks(tasks, n, a, b))
    case _ => n in NodeNames(nodes) && exists j :: OnlyTask(tasks, n, j) && TaskStands(v, tasks[j])
  }

  predicate TwoTasks(tasks: seq<TaskState>, n: string, a: int, b: int)
  {
    0 <= a < b < |tasks| && tasks[a].node == n && tasks[b].node == n
  }

  /** The names met: of nodes wanted and of nodes with a task. */
  function NodesMet(nodes: seq<Node>, tasks: seq<TaskState>): set<string>
  {
    set n | n in NodeNames(nodes) + TaskNodes(tasks)
  }

  ghost function Standing(v: View, nodes: seq<Node>, tasks: seq<TaskState>): set<string>
  {
    set n | n in NodeNames(nodes) + TaskNodes(tasks) && NodeStands(v, nodes, tasks, n)
  }

  lemma {:induction false} OneTaskOn(tasks: seq<TaskState>, n: string, j: int)
    requires OnlyTask(tasks, n, j)
    ensures TasksOn(tasks, n) == [tasks[j]]
  {
    var k := |tasks| - 1;
    var u, z := tasks[..k], tasks[k];
    if j == k {
      TasksOnMembers(u, n);
      forall l | 0 <= l < k ensures TaskNodes(u)[l] != n { assert u[l] == tasks[l]; }
    } else {
      assert OnlyTask(u, n, j);
      OneTaskOn(u, n, j);
    }
  }

  lemma {:induction false} TwoTasksOn(tasks: seq<TaskState>, n: string, a: int, b: int)
    requires TwoTasks(tasks, n, a, b)
    ensures |TasksOn(tasks, n)| > 1
  {
    var k := |tasks| - 1;
    var u, z := tasks[..k], tasks[k];
    if b == k {
      TasksOnMembers(u, n);
      assert TaskNodes(u)[a] == n;
    } else {
      TwoTasksOn(u, n, a, b);
    }
  }

  lemma {:induction false} TasksOnNumber(tasks: seq<TaskState>, n: string)
    ensures |TasksOn(tasks, n)| == 0 <==> n !in TaskNodes(tasks)
    ensures |TasksOn(tasks, n)| == 1 <==> exists j :: OnlyTask(tasks, n, j)
    ensures |TasksOn(tasks, n)| > 1 <==> exists a, b :: TwoTasks(tasks, n, a, b)
    ensures forall j :: OnlyTask(tasks, n, j) ==> TasksOn(tasks, n) == [tasks[j]]
  {
    hide TasksOn;
    TasksOnMembers(tasks, n);
    forall j | OnlyTask(tasks, n, j) ensures TasksOn(tasks, n) == [tasks[j]] { OneTaskOn(tasks, n, j); }
    forall a, b | TwoTasks(tasks, n, a, b) ensures |TasksOn(tasks, n)| > 1 { TwoTasksOn(tasks, n, a, b); }
    if n in TaskNodes(tasks) {
      var a :| 0 <= a < |tasks| && TaskNodes(tasks)[a] == n;
      if b :| 0 <= b < |tasks| && b != a && tasks[b].node == n {
        assert TwoTasks(tasks, n, if a < b then a else b, if a < b then b else a);
      } else {
        assert OnlyTask(tasks, n, a);
      }
    }
  }

  /** The class of an item, from the objects. */
  lemma ItemStands(nodes: seq<Node>, tasks: seq<TaskState>, n: string, v: View)
    requires n in NodeNames(nodes) || n in TaskNodes(tasks)
    ensures TaskClass(TaskItemFor(nodes, tasks, n)) == v <==> NodeStands(v, nodes, tasks, n)
  {
    hide IsFailed, TypedRecovery, Stuck, TwoTasks, NodeNames, TaskNodes, LastNode, TasksOn;
    LastNodeFound(nodes, n);
    TasksOnMembers(tasks, n);
    TasksOnNumber(tasks, n);
    if |TasksOn(tasks, n)| == 1 {
      var j :| OnlyTask(tasks, n, j);
      assert TasksOn(tasks, n) == [tasks[j]];
      StuckIsFailed(tasks[j]);
      forall i | OnlyTask(tasks, n, i) ensures tasks[i] == tasks[j] {}
    }
  }

  /** Each of the six views: its names are those that stand for it by the objects alone, ascending, each once. */
  lemma TaskViewsMean(nodes: seq<Node>, tasks: seq<TaskState>, v: View)
    ensures var l := ViewOf(TaskViews(nodes, tasks), v);
            && AscendingBy(TaskItemName(), l) && NamesIn(TaskItemName(), l) == Standing(v, nodes, tasks)
            && |l| == |Standing(v, nodes, tasks)|
  {
    hide TaskClass, NodeStands, SortNames, TaskItemFor, Less, NodeNames, TaskNodes;
    var all, names := MatchTasks(nodes, tasks), SortNames(NodeNames(nodes) + TaskNodes(tasks));
    AllNames(nodes, tasks);
    ViewNames(TaskClass, TaskItemName(), all, v);
    var l := ViewOf(TaskViews(nodes, tasks), v);
    forall n ensures n in NamesIn(TaskItemName(), l) <==> n in Standing(v, nodes, tasks) {
      if n in NamesIn(TaskItemName(), l) {
        var x :| x in all && x.name == n && TaskClass(x) == v;
        var i :| 0 <= i < |all| && all[i] == x;
        assert names[i] in names;
        ItemStands(nodes, tasks, n, v);
      }
      if n in Standing(v, nodes, tasks) {
        assert n in names;
        var i :| 0 <= i < |names| && names[i] == n;
        ItemStands(nodes, tasks, n, v);
        assert all[i] in all;
      }
    }
  }

  lemma AllNames(nodes: seq<Node>, tasks: seq<TaskState>)
    ensures var all, names := MatchTasks(nodes, tasks), SortNames(NodeNames(nodes) + TaskNodes(tasks));
            && |all| == |names| && AscendingBy(TaskItemName(), all)
            && forall i :: 0 <= i < |all| ==> all[i].name == names[i] && all[i] == TaskItemFor(nodes, tasks, names[i])
  {
    hide SortNames, Less, NodeNames, TaskNodes, LastNode, TasksOn;
    var all, names := MatchTasks(nodes, tasks), SortNames(NodeNames(nodes) + TaskNodes(tasks));
    forall i, j | 0 <= i < j < |all| ensures Less(all[i].name, all[j].name) {
      assert Less(names[i], names[j]);
    }
  }

  /** The number of items is the number of names met. */
  lemma TaskItemsCount(nodes: seq<Node>, tasks: seq<TaskState>)
    ensures |TaskViews(nodes, tasks).all| == |NodesMet(nodes, tasks)|
  {
    hide SortNames, Less, NodeNames, TaskNodes, TaskItemFor;
    var all, names := MatchTasks(nodes, tasks), SortNames(NodeNames(nodes) + TaskNodes(tasks));
    AllNames(nodes, tasks);
    AscendingSize(TaskItemName(), all);
    ViewsOfAll(TaskClass, all);
    forall n ensures n in NamesIn(TaskItemName(), all) <==> n in NodesMet(nodes, tasks) {
      if n in NamesIn(TaskItemName(), all) {
        var i :| 0 <= i < |all| && all[i].name == n;
        assert names[i] in names;
      }
      if n in NodesMet(nodes, tasks) {
        assert n in names;
        var i :| 0 <= i < |names| && names[i] == n;
        assert all[i] in all && TaskItemName()(all[i]) == n;
      }
    }
    assert NamesIn(TaskItemName(), all) == NodesMet(nodes, tasks);
  }

  // ---- what a name stands for among planned and current groups ----

  /** Group `j` is the last one of this name. */
  predicate LatestGroup(groups: seq<GroupState>, n: string, j: int)
  {
    0 <= j < |groups| && groups[j].spec.name == n && forall l :: j < l < |groups| ==> groups[l].spec.name != n
  }

  predicate GroupIs(v: View, g: GroupState)
  {
    match v
    case Failed => g.error.Some?
    case Completed => g.error.None? && g.completed
    case Running => g.error.None? && !g.completed && g.started
    case Pending => g.error.None? && !g.completed && !g.started
    case _ => false
  }

  ghost predicate GroupStands(v: View, desired: seq<GroupSpec>, groups: seq<GroupState>, n: string)
  {
    match v
    case ToBeCreated => n in SpecNames(desired) && n !in GroupNames(groups)
    case Invalid => n !in SpecNames(desired) && n in GroupNames(groups)
    case _ => n in SpecNames(desired) && exists j :: LatestGroup(groups, n, j) && GroupIs(v, groups[j])
  }

  function GroupsMet(desired: seq<GroupSpec>, groups: seq<GroupState>): set<string>
  {
    set n | n in SpecNames(desired) + GroupNames(groups)
  }

  ghost function StandingGroups(v: View, desired: seq<GroupSpec>, groups: seq<GroupState>): set<string>
  {
    set n | n in SpecNames(desired) + GroupNames(groups) && GroupStands(v, desired, groups, n)
  }

  lemma {:induction false} LatestIsCurrent(groups: seq<GroupState>, n: string)
    ensures LastCurrent(groups, n).None? <==> n !in GroupNames(groups)
    ensures LastCurrent(groups, n).Some? ==>
              exists j :: LatestGroup(groups, n, j) && LastCurrent(groups, n) == Some(groups[j])
  {
    if groups != [] {
      var k := |groups| - 1;
      var t := groups[..k];
      assert GroupNames(groups) == GroupNames(t) + [groups[k].spec.name];
      if groups[k].spec.name == n {
        assert LatestGroup(groups, n, k);
      } else {
        LatestIsCurrent(t, n);
        if LastCurrent(t, n).Some? {
          var j :| LatestGroup(t, n, j) && LastCurrent(t, n) == Some(t[j]);
          assert LatestGroup(groups, n, j);
        }
      }
    }
  }

  lemma GroupItemStands(desired: seq<GroupSpec>, groups: seq<GroupState>, n: string, v: View)
    requires n in SpecNames(desired) || n in GroupNames(groups)
    ensures GroupClass(GroupItemFor(desired, groups, n)) == v <==> GroupStands(v, desired, groups, n)
  {
    hide SpecNames, GroupNames, LastCurrent, LastPlanned;
    LastPlannedFound(desired, n);
    LatestIsCurrent(groups, n);
    if LastCurrent(groups, n).Some? {
      var j :| LatestGroup(groups, n, j) && LastCurrent(groups, n) == Some(groups[j]);
      forall i | LatestGroup(groups, n, i) ensures i == j {}
    }
  }

  lemma AllGroupNames(desired: seq<GroupSpec>, groups: seq<GroupState>)
    ensures var all, names := MatchGroups(desired, groups), SortNames(SpecNames(desired) + GroupNames(groups));
            && |all| == |names| && AscendingBy(GroupItemName(), all)
            && forall i :: 0 <= i < |all| ==>
                 all[i].name == names[i] && all[i] == GroupItemFor(desired, groups, names[i])
  {
    hide SortNames, Less, SpecNames, GroupNames, LastCurrent, LastPlanned;
    var all, names := MatchGroups(desired, groups), SortNames(SpecNames(desired) + GroupNames(groups));
    forall i, j | 0 <= i < j < |all| ensures Less(all[i].name, all[j].name) {
      assert Less(names[i], names[j]);
    }
  }

  /** The six views of groups: their names are those that stand for it, ascending, each once. */
  lemma GroupViewsMean(desired: seq<GroupSpec>, groups: seq<GroupState>, v: View)
    ensures var l := ViewOf(GroupViews(desired, groups), v);
            && AscendingBy(GroupItemName(), l) && NamesIn(GroupItemName(), l) == StandingGroups(v, desired, groups)
            && |l| == |StandingGroups(v, desired, groups)|
  {
    hide GroupClass, GroupStands, SortNames, GroupItemFor, Less, SpecNames, GroupNames;
    var all, names := MatchGroups(desired, groups), SortNames(SpecNames(desired) + GroupNames(groups));
    AllGroupNames(desired, groups);
    ViewNames(GroupClass, GroupItemName(), all, v);
    var l := ViewOf(GroupViews(desired, groups), v);
    forall n ensures n in NamesIn(GroupItemName(), l) <==> n in StandingGroups(v, desired, groups) {
      if n in NamesIn(GroupItemName(), l) {
        var x :| x in all && x.name == n && GroupClass(x) == v;
        var i :| 0 <= i < |all| && all[i] == x;
        assert names[i] in names;
        GroupItemStands(desired, groups, n, v);
      }
      if n in StandingGroups(v, desired, groups) {
        assert n in names;
        var i :| 0 <= i < |names| && names[i] == n;
        GroupItemStands(desired, groups, n, v);
        assert all[i] in all;
      }
    }
  }

  lemma GroupItemsCount(desired: seq<GroupSpec>, groups: seq<GroupState>)
    ensures |GroupViews(desired, groups).all| == |GroupsMet(desired, groups)|
  {
    hide SortNames, Less, SpecNames, GroupNames, GroupItemFor;
    var all, names := MatchGroups(desired, groups), SortNames(SpecNames(desired) + GroupNames(groups));
    AllGroupNames(desired, groups);
    AscendingSize(GroupItemName(), all);
    ViewsOfAll(GroupClass, all);
    forall n ensures n in NamesIn(GroupItemName(), all) <==> n in GroupsMet(desired, groups) {
      if n in NamesIn(GroupItemName(), all) {
        var i :| 0 <= i < |all| && all[i].name == n;
        assert names[i] in names;
      }
      if n in GroupsMet(desired, groups) {
        assert n in names;
        var i :| 0 <= i < |names| && names[i] == n;
        assert all[i] in all && GroupItemName()(all[i]) == n;
      }
    }
    assert NamesIn(GroupItemName(), all) == GroupsMet(desired, groups);
  }

  // ---- what a controller looks at ----

  /** The names that a controller has met, by what they stand for. */
  ghost predicate Sees<T>(w: Views<T>, key: T -> string, met: set<string>, standing: View -> set<string>)
  {
    && (forall v :: |ViewOf(w, v)| == |standing(v)| && NamesIn(key, ViewOf(w, v)) == standing(v))
    && (forall v :: ViewOf(w, v) != [] ==> First(standing(v), key(ViewOf(w, v)[0])))
    && |w.all| == |met| && forall v :: standing(v) <= met
  }

  lemma TasksSeen(nodes: seq<Node>, tasks: seq<TaskState>)
    ensures Sees(TaskViews(nodes, tasks), TaskItemName(), NodesMet(nodes, tasks), v => Standing(v, nodes, tasks))
  {
    hide TaskViews, NodeStands, ViewOf, First, NamesIn;
    var w := TaskViews(nodes, tasks);
    TaskItemsCount(nodes, tasks);
    forall v
      ensures |ViewOf(w, v)| == |Standing(v, nodes, tasks)|
      ensures NamesIn(TaskItemName(), ViewOf(w, v)) == Standing(v, nodes, tasks)
      ensures ViewOf(w, v) != [] ==> First(Standing(v, nodes, tasks), TaskItemName()(ViewOf(w, v)[0]))
    {
      TaskViewsMean(nodes, tasks, v);
      if ViewOf(w, v) != [] { FirstOfAscending(TaskItemName(), ViewOf(w, v)); }
    }
  }

  lemma GroupsSeen(desired: seq<GroupSpec>, groups: seq<GroupState>)
    ensures Sees(GroupViews(desired, groups), GroupItemName(), GroupsMet(desired, groups),
                 v => StandingGroups(v, desired, groups))
  {
    hide GroupViews, GroupStands, ViewOf, First, NamesIn;
    var w := GroupViews(desired, groups);
    GroupItemsCount(desired, groups);
    forall v
      ensures |ViewOf(w, v)| == |StandingGroups(v, desired, groups)|
      ensures NamesIn(GroupItemName(), ViewOf(w, v)) == StandingGroups(v, desired, groups)
      ensures ViewOf(w, v) != [] ==> First(StandingGroups(v, desired, groups), GroupItemName()(ViewOf(w, v)[0]))
    {
      GroupViewsMean(desired, groups, v);
      if ViewOf(w, v) != [] { FirstOfAscending(GroupItemName(), ViewOf(w, v)); }
    }
  }

  lemma SameSize<T>(a: set<T>, b: set<T>)
    requires a <= b
    ensures |a| == |b| <==> a == b
  {
    assert b == a + (b - a);
    if |a| == |b| { assert |b - a| == 0; }
  }

  /** The five numbers in a status. */
  ghost predicate CountersTell(c: Counters, met: set<string>, standing: View -> set<string>)
  {
    && c.all == |met| && c.running == |standing(Running)| && c.succeeded == |standing(Completed)|
    && c.failed == |standing(Failed)| && c.invalid == |standing(Invalid)|
  }

  /** Something is pending or running. */
  ghost predicate Busy(standing: View -> set<string>) { standing(Running) != {} || standing(Pending) != {} }

  /** Nothing is wrong, or something is still busy, which comes first. */
  ghost predicate Sound(standing: View -> set<string>)
  {
    Busy(standing) || (standing(Invalid) == {} && standing(Failed) == {})
  }

  lemma Looks<T>(w: Views<T>, key: T -> string, met: set<string>, standing: View -> set<string>)
    requires Sees(w, key, met, standing)
    ensures CountersTell(w.Counters(), met, standing)
    ensures w.Active() > 0 <==> Busy(standing)
    ensures |w.invalid| > 0 <==> standing(Invalid) != {}
    ensures |w.failed| > 0 <==> standing(Failed) != {}
    ensures |w.completed| == |w.all| <==> standing(Completed) == met
    ensures |w.tobeCreated| > 0 <==> standing(ToBeCreated) != {}
    ensures |w.tobeCreated| > 0 ==> First(standing(ToBeCreated), key(w.tobeCreated[0]))
  {
    hide NamesIn, First;
    forall v ensures ViewOf(w, v) == [] <==> standing(v) == {} {}
    assert ViewOf(w, Pending) == w.pending && ViewOf(w, Running) == w.running && ViewOf(w, Completed) == w.completed;
    assert ViewOf(w, Failed) == w.failed && ViewOf(w, Invalid) == w.invalid;
    assert ViewOf(w, ToBeCreated) == w.tobeCreated;
    SameSize(standing(Completed), met);
  }
}
