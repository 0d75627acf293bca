/**
 * The matching of desired and current objects, as the controllers compute it: maps filled in loops, sorted, sorted
 * out.
 */
module Lists {
  import opened Names
  import opened Api
  import opened Matching

  function Added<T>(w: Views<T>, v: View, x: T): Views<T>
  {
    match v
    case ToBeCreated => w.(tobeCreated := w.tobeCreated + [x])
    case Pending => w.(pending := w.pending + [x])
    case Running => w.(running := w.running + [x])
    case Completed => w.(completed := w.completed + [x])
    case Failed => w.(failed := w.failed + [x])
    case Invalid => w.(invalid := w.invalid + [x])
  }

  /** Deriving the views of one more item appends it to the view of its class. */
  lemma DeriveNext<T>(cls: T -> View, all: seq<T>, i: nat)
    requires i < |all|
    ensures Derive(cls, all[..i + 1]).(all := all) == Added(Derive(cls, all[..i]).(all := all), cls(all[i]), all[i])
  {
    assert all[..i + 1][..i] == all[..i];
  }

  lemma DeriveNone<T>(cls: T -> View, all: seq<T>)
    ensures Derive(cls, all[..0]).(all := all) == Views(all, [], [], [], [], [], [])
    ensures Derive(cls, all[..|all|]) == Derive(cls, all) && Derive(cls, all).(all := all) == Derive(cls, all)
  {
    assert all[..|all|] == all;
  }

  class TaskReconcileList {
    var all: seq<TaskItem>
    var invalid: seq<TaskItem>
    var tobeCreated: seq<TaskItem>
    var pending: seq<TaskItem>
    var running: seq<TaskItem>
    var completed: seq<TaskItem>
    var failed: seq<TaskItem>

    function Lists(): Views<TaskItem>
      reads this
    {
      Views(all, invalid, tobeCreated, pending, running, completed, failed)
    }

    constructor ()
      ensures Lists() == Views([], [], [], [], [], [], [])
    {
      all, invalid, tobeCreated, pending, running, completed, failed := [], [], [], [], [], [], [];
    }

    method DeriveViews()
      requires invalid == tobeCreated == pending == running == completed == failed == []
      modifies this
      ensures Lists() == Derive(TaskClass, old(all))
    {
      hide Derive, TypedRecovery;
      DeriveNone(TaskClass, all);
      for i := 0 to |all|
        invariant all == old(all)
        invariant Lists() == Derive(TaskClass, all[..i]).(all := all)
      {
        var v := all[i];
        DeriveNext(TaskClass, all, i);
        if v.node.Some? {
          if |v.tasks| == 0 {
            tobeCreated := tobeCreated + [v];
          } else if |v.tasks| == 1 {
            if v.tasks[0].error.Some? && TypedRecovery(v.tasks[0].recovery) == UnknownStrategy {
              failed := failed + [v];
            } else if v.tasks[0].completed {
              completed := completed + [v];
            } else if v.tasks[0].started {
              running := running + [v];
            } else {
              pending := pending + [v];
            }
          } else {
            invalid := invalid + [v];
          }
        } else {
          invalid := invalid + [v];
        }
      }
    }

    method ActiveTasks() returns (n: nat)
      ensures n == Lists().Active()
    {
      n := |pending| + |running|;
    }
  }

  /** What the map holds after some of the nodes and some of the tasks: an item under every name met. */
  ghost predicate TaskMap(m: map<string, TaskItem>, nodes: seq<Node>, tasks: seq<TaskState>)
  {
    && (forall k :: k in m <==> k in NodeNames(nodes) || k in TaskNodes(tasks))
    && (forall k :: k in m ==> m[k] == TaskItemFor(nodes, tasks, k))
  }

  lemma EmptyTaskMap()
    ensures TaskMap(map[], [], [])
  {
  }

  /** Items are stored under their own names. */
  lemma TaskMapNames(m: map<string, TaskItem>, nodes: seq<Node>, tasks: seq<TaskState>)
    requires TaskMap(m, nodes, tasks)
    ensures forall k :: k in m ==> m[k].name == k
  {
  }

  lemma TaskMapNode(m: map<string, TaskItem>, nodes: seq<Node>, n: Node)
    requires TaskMap(m, nodes, [])
    ensures TaskMap(m[n.name := TaskItem(n.name, Some(n), [])], nodes + [n], [])
  {
    assert NodeNames(nodes + [n]) == NodeNames(nodes) + [n.name];
    assert (nodes + [n])[..|nodes|] == nodes;
  }

  lemma TaskMapTask(m: map<string, TaskItem>, nodes: seq<Node>, tasks: seq<TaskState>, t: TaskState)
    requires TaskMap(m, nodes, tasks)
    ensures var item := if t.node in m then m[t.node].(tasks := m[t.node].tasks + [t]) else TaskItem(t.node, None, [t]);
            TaskMap(m[t.node := item], nodes, tasks + [t])
  {
    hide LastNode, TasksOn, TaskNodes, NodeNames;
    assert TaskNodes(tasks + [t]) == TaskNodes(tasks) + [t.node];
    var item := if t.node in m then m[t.node].(tasks := m[t.node].tasks + [t]) else TaskItem(t.node, None, [t]);
    var next := m[t.node := item];
    forall k | k in next ensures next[k] == TaskItemFor(nodes, tasks + [t], k) {
      TasksOnNext(tasks, t, k);
      if k !in m {
        LastNodeFound(nodes, k);
        TasksOnMembers(tasks, k);
      }
    }
  }

  lemma {:induction false} TasksOnNext(tasks: seq<TaskState>, t: TaskState, name: string)
    ensures TasksOn(tasks + [t], name) == if name == t.node then TasksOn(tasks, name) + [t] else TasksOn(tasks, name)
  {
    assert (tasks + [t])[..|tasks|] == tasks;
  }

  /** Listing such a map in any order and sorting by name gives the specified list. */
  lemma {:induction false} TaskMapSorted(
      m: map<string, TaskItem>, nodes: seq<Node>, tasks: seq<TaskState>, list: seq<TaskItem>)
    requires TaskMap(m, nodes, tasks)
    requires DistinctKeys(TaskItemName(), list)
    requires forall x :: x in list <==> x.name in m && x == m[x.name]
    ensures SortBy(TaskItemName(), list) == MatchTasks(nodes, tasks)
  {
    var s, all := SortBy(TaskItemName(), list), MatchTasks(nodes, tasks);
    var names := SortNames(NodeNames(nodes) + TaskNodes(tasks));
    SortByProperties(TaskItemName(), list);
    SortByAscending(TaskItemName(), list);
    forall x ensures x in s <==> x in all {
      if x in s {
        assert x in list;
        assert x.name in names;
        var i :| 0 <= i < |names| && names[i] == x.name;
        assert all[i] == x;
      }
      if x in all {
        var i :| 0 <= i < |all| && all[i] == x;
        assert names[i] in names;
        assert x in list;
      }
    }
    AscendingByUnique(TaskItemName(), s, all);
  }

  method ReconcileTasks(nodes: seq<Node>, tasks: seq<TaskState>) returns (list: TaskReconcileList)
    ensures fresh(list) && list.Lists() == TaskViews(nodes, tasks)
  {
    hide TaskMap, Derive, MatchTasks;
    EmptyTaskMap();
    var matchMap: map<string, TaskItem> := map[];
    for i := 0 to |nodes|
      invariant TaskMap(matchMap, nodes[..i], [])
    {
      assert nodes[..i + 1] == nodes[..i] + [nodes[i]];
      TaskMapNode(matchMap, nodes[..i], nodes[i]);
      matchMap := matchMap[nodes[i].name := TaskItem(nodes[i].name, Some(nodes[i]), [])];
    }
    assert nodes[..|nodes|] == nodes;
    for i := 0 to |tasks|
      invariant TaskMap(matchMap, nodes, tasks[..i])
    {
      var t := tasks[i];
      assert tasks[..i + 1] == tasks[..i] + [t];
      TaskMapTask(matchMap, nodes, tasks[..i], t);
      if t.node in matchMap {
        var v := matchMap[t.node];
        matchMap := matchMap[t.node := v.(tasks := v.tasks + [t])];
      } else {
        matchMap := matchMap[t.node := TaskItem(t.node, None, [t])];
      }
    }
    assert tasks[..|tasks|] == tasks;
    TaskMapNames(matchMap, nodes, tasks);
    list := new TaskReconcileList();
    var todo := matchMap.Keys;
    while todo != {}
      invariant fresh(list) && todo <= matchMap.Keys && list.Lists() == Views(list.all, [], [], [], [], [], [])
      invariant DistinctKeys(TaskItemName(), list.all)
      invariant forall x :: x in list.all <==> x.name in matchMap && x.name !in todo && x == matchMap[x.name]
      decreases todo
    {
      var k :| k in todo;
      list.all := list.all + [matchMap[k]];
      todo := todo - {k};
    }
    TaskMapSorted(matchMap, nodes, tasks, list.all);
    list.all := SortBy(TaskItemName(), list.all);
    list.DeriveViews();
  }

  // ---- groups ----

  class TaskGroupReconcileList {
    var all: seq<GroupItem>
    var invalid: seq<GroupItem>
    var tobeCreated: seq<GroupItem>
    var pending: seq<GroupItem>
    var running: seq<GroupItem>
    var completed: seq<GroupItem>
    var failed: seq<GroupItem>

    function Lists(): Views<GroupItem>
      reads this
    {
      Views(all, invalid, tobeCreated, pending, running, completed, failed)
    }

    constructor ()
      ensures Lists() == Views([], [], [], [], [], [], [])
    {
      all, invalid, tobeCreated, pending, running, completed, failed := [], [], [], [], [], [], [];
    }

    method DeriveViews()
      requires invalid == tobeCreated == pending == running == completed == failed == []
      modifies this
      ensures Lists() == Derive(GroupClass, old(all))
    {
      hide Derive;
      DeriveNone(GroupClass, all);
      for i := 0 to |all|
        invariant all == old(all)
        invariant Lists() == Derive(GroupClass, all[..i]).(all := all)
      {
        var v := all[i];
        DeriveNext(GroupClass, all, i);
        if v.planned.Some? {
          if v.current.None? {
            tobeCreated := tobeCreated + [v];
          } else if v.current.value.error.Some? {
            failed := failed + [v];
          } else if v.current.value.completed {
            completed := completed + [v];
          } else if v.current.value.started {
            running := running + [v];
          } else {
            pending := pending + [v];
          }
        } else {
          invalid := invalid + [v];
        }
      }
    }

    method ActiveTaskGroups() returns (n: nat)
      ensures n == Lists().Active()
    {
      n := |pending| + |running|;
    }
  }

  ghost predicate GroupMap(m: map<string, GroupItem>, desired: seq<GroupSpec>, current: seq<GroupState>)
  {
    && (forall k :: k in m <==> k in SpecNames(desired) || k in GroupNames(current))
    && (forall k :: k in m ==> m[k] == GroupItemFor(desired, current, k))
  }

  lemma EmptyGroupMap()
    ensures GroupMap(map[], [], [])
  {
  }

  lemma GroupMapNames(m: map<string, GroupItem>, desired: seq<GroupSpec>, current: seq<GroupState>)
    requires GroupMap(m, desired, current)
    ensures forall k :: k in m ==> m[k].name == k
  {
  }

  lemma GroupMapSpec(m: map<string, GroupItem>, desired: seq<GroupSpec>, s: GroupSpec)
    requires GroupMap(m, desired, [])
    ensures GroupMap(m[s.name := GroupItem(s.name, Some(s), None)], desired + [s], [])
  {
    assert SpecNames(desired + [s]) == SpecNames(desired) + [s.name];
    assert (desired + [s])[..|desired|] == desired;
  }

  lemma GroupMapCurrent(m: map<string, GroupItem>, desired: seq<GroupSpec>, current: seq<GroupState>, g: GroupState)
    requires GroupMap(m, desired, current)
    ensures var name := g.spec.name;
            var item := if name in m then m[name].(current := Some(g)) else GroupItem(name, None, Some(g));
            GroupMap(m[name := item], desired, current + [g])
  {
    assert GroupNames(current + [g]) == GroupNames(current) + [g.spec.name];
    assert (current + [g])[..|current|] == current;
    if g.spec.name !in m { LastPlannedFound(desired, g.spec.name); }
  }

  lemma {:induction false} GroupMapSorted(
      m: map<string, GroupItem>, desired: seq<GroupSpec>, current: seq<GroupState>, list: seq<GroupItem>)
    requires GroupMap(m, desired, current)
    requires DistinctKeys(GroupItemName(), list)
    requires forall x :: x in list <==> x.name in m && x == m[x.name]
    ensures SortBy(GroupItemName(), list) == MatchGroups(desired, current)
  {
    var s, all := SortBy(GroupItemName(), list), MatchGroups(desired, current);
    var names := SortNames(SpecNames(desired) + GroupNames(current));
    SortByProperties(GroupItemName(), list);
    SortByAscending(GroupItemName(), list);
    forall x ensures x in s <==> x in all {
      if x in s {
        assert x in list;
        assert x.name in names;
        var i :| 0 <= i < |names| && names[i] == x.name;
        assert all[i] == x;
      }
      if x in all {
        var i :| 0 <= i < |all| && all[i] == x;
        assert names[i] in names;
        assert x in list;
      }
    }
    AscendingByUnique(GroupItemName(), s, all);
  }

  method ReconcileTaskGroups(desired: seq<GroupSpec>, current: seq<GroupState>) returns (list: TaskGroupReconcileList)
    ensures fresh(list) && list.Lists() == GroupViews(desired, current)
  {
    hide GroupMap, Derive, MatchGroups;
    EmptyGroupMap();
    var matchMap: map<string, GroupItem> := map[];
    for i := 0 to |desired|
      invariant GroupMap(matchMap, desired[..i], [])
    {
      assert desired[..i + 1] == desired[..i] + [desired[i]];
      GroupMapSpec(matchMap, desired[..i], desired[i]);
      matchMap := matchMap[desired[i].name := GroupItem(desired[i].name, Some(desired[i]), None)];
    }
    assert desired[..|desired|] == desired;
    for i := 0 to |current|
      invariant GroupMap(matchMap, desired, current[..i])
    {
      var g := current[i];
      assert current[..i + 1] == current[..i] + [g];
      GroupMapCurrent(matchMap, desired, current[..i], g);
      if g.spec.name in matchMap {
        var v := matchMap[g.spec.name];
        matchMap := matchMap[g.spec.name := v.(current := Some(g))];
      } else {
        matchMap := matchMap[g.spec.name := GroupItem(g.spec.name, None, Some(g))];
      }
    }
    assert current[..|current|] == current;
    GroupMapNames(matchMap, desired, current);
    list := new TaskGroupReconcileList();
    var todo := matchMap.Keys;
    while todo != {}
      invariant fresh(list) && todo <= matchMap.Keys && list.Lists() == Views(list.all, [], [], [], [], [], [])
      invariant DistinctKeys(GroupItemName(), list.all)
      invariant forall x :: x in list.all <==> x.name in matchMap && x.name !in todo && x == matchMap[x.name]
      decreases todo
    {
      var k :| k in todo;
      list.all := list.all + [matchMap[k]];
      todo := todo - {k};
    }
    GroupMapSorted(matchMap, desired, current, list.all);
    list.all := SortBy(GroupItemName(), list.all);
    list.DeriveViews();
  }

  // ---- what the order of the lists read does not change ----

  /** Nodes with distinct names in another order match the same. */
  lemma NodeOrderIsIrrelevant(nodes: seq<Node>, other: seq<Node>, tasks: seq<TaskState>)
    requires DistinctKeys(NodeName(), nodes) && multiset(nodes) == multiset(other)
    ensures MatchTasks(nodes, tasks) == MatchTasks(other, tasks)
  {
    forall i, j | 0 <= i < j < |other| ensures other[i].name != other[j].name {
      DistinctKeysOfPermutation(NodeName(), nodes, other, i, j);
    }
    forall n ensures n in nodes <==> n in other {
      assert n in nodes <==> n in multiset(nodes);
      assert n in other <==> n in multiset(other);
    }
    forall k ensures LastNode(nodes, k) == LastNode(other, k) {
      assert NodeName()(Node(k, map[])) == k;
      forall a, b | 0 <= a < b < |nodes| ensures nodes[a].name != nodes[b].name {
        assert NodeName()(nodes[a]) != NodeName()(nodes[b]);
      }
      LastNodeUnique(nodes, other, k);
    }
    forall k ensures k in NodeNames(nodes) + TaskNodes(tasks) <==> k in NodeNames(other) + TaskNodes(tasks) {
      LastNodeFound(nodes, k);
      LastNodeFound(other, k);
    }
    SortNamesSame(NodeNames(nodes) + TaskNodes(tasks), NodeNames(other) + TaskNodes(tasks));
  }

  lemma {:induction false} LastNodeUnique(a: seq<Node>, b: seq<Node>, k: string)
    requires forall i, j :: 0 <= i < j < |a| ==> a[i].name != a[j].name
    requires forall n :: n in a <==> n in b
    ensures LastNode(a, k) == LastNode(b, k)
  {
    LastNodeFound(a, k);
    LastNodeFound(b, k);
    NameIn(a, b, k);
    NameIn(b, a, k);
    if k in NodeNames(a) {
      var x, y := LastNode(a, k).value, LastNode(b, k).value;
      assert x in a && y in a;
      var p :| 0 <= p < |a| && a[p] == x;
      var q :| 0 <= q < |a| && a[q] == y;
      assert p == q;
    }
  }

  lemma NameIn(a: seq<Node>, b: seq<Node>, k: string)
    requires forall n :: n in a ==> n in b
    ensures k in NodeNames(a) ==> k in NodeNames(b)
  {
    if k in NodeNames(a) {
      var i :| 0 <= i < |a| && NodeNames(a)[i] == k;
      assert a[i] in b;
      var j :| 0 <= j < |b| && b[j] == a[i];
      assert NodeNames(b)[j] == k;
    }
  }

  // ---- what the matching means ----

  lemma {:induction false} LastNodeIsLast(nodes: seq<Node>, name: string)
    requires name in NodeNames(nodes)
    ensures exists k :: 0 <= k < |nodes| && LastNode(nodes, name) == Some(nodes[k]) && nodes[k].name == name
                        && forall j :: k < j < |nodes| ==> nodes[j].name != name
  {
    var t, z := nodes[..|nodes| - 1], nodes[|nodes| - 1];
    if z.name != name {
      assert NodeNames(nodes) == NodeNames(t) + [z.name];
      LastNodeIsLast(t, name);
      var k :| 0 <= k < |t| && LastNode(t, name) == Some(t[k]) && t[k].name == name
               && forall j :: k < j < |t| ==> t[j].name != name;
      assert nodes[k] == t[k];
      assert forall j :: k < j < |t| ==> nodes[j] == t[j];
    } else {
      assert LastNode(nodes, name) == Some(nodes[|nodes| - 1]);
    }
  }

  lemma {:induction false} LastPlannedIsLast(desired: seq<GroupSpec>, name: string)
    requires name in SpecNames(desired)
    ensures exists k :: 0 <= k < |desired| && LastPlanned(desired, name) == Some(desired[k]) && desired[k].name == name
                        && forall j :: k < j < |desired| ==> desired[j].name != name
  {
    var t, z := desired[..|desired| - 1], desired[|desired| - 1];
    if z.name != name {
      assert SpecNames(desired) == SpecNames(t) + [z.name];
      LastPlannedIsLast(t, name);
      var k :| 0 <= k < |t| && LastPlanned(t, name) == Some(t[k]) && t[k].name == name
               && forall j :: k < j < |t| ==> t[j].name != name;
      assert desired[k] == t[k];
      assert forall j :: k < j < |t| ==> desired[j] == t[j];
    } else {
      assert LastPlanned(desired, name) == Some(desired[|desired| - 1]);
    }
  }

  lemma {:induction false} LastCurrentIsLast(current: seq<GroupState>, name: string)
    requires name in GroupNames(current)
    ensures exists k ::
              0 <= k < |current| && LastCurrent(current, name) == Some(current[k]) && current[k].spec.name == name
              && forall j :: k < j < |current| ==> current[j].spec.name != name
  {
    var t, z := current[..|current| - 1], current[|current| - 1];
    if z.spec.name != name {
      assert GroupNames(current) == GroupNames(t) + [z.spec.name];
      LastCurrentIsLast(t, name);
      var k :| 0 <= k < |t| && LastCurrent(t, name) == Some(t[k]) && t[k].spec.name == name
               && forall j :: k < j < |t| ==> t[j].spec.name != name;
      assert current[k] == t[k];
      assert forall j :: k < j < |t| ==> current[j] == t[j];
    } else {
      assert LastCurrent(current, name) == Some(current[|current| - 1]);
    }
  }

  lemma {:induction false} TasksOnConcat(a: seq<TaskState>, b: seq<TaskState>, name: string)
    ensures TasksOn(a + b, name) == TasksOn(a, name) + TasksOn(b, name)
  {
    if b == [] {
      assert a + b == a;
    } else {
      assert (a + b)[..|a + b| - 1] == a + b[..|b| - 1];
      TasksOnConcat(a, b[..|b| - 1], name);
    }
  }

  lemma {:induction false} TasksOnCounts(tasks: seq<TaskState>, name: string, t: TaskState)
    ensures multiset(TasksOn(tasks, name))[t] == if t.node == name then multiset(tasks)[t] else 0
  {
    if tasks != [] {
      TasksOnCounts(tasks[..|tasks| - 1], name, t);
      assert tasks == tasks[..|tasks| - 1] + [tasks[|tasks| - 1]];
    }
  }

  /**
   * The matching lists each name of a node or of a task's node exactly once, ascending, with the last node of that name
   * if there is one, and with all tasks that name it and no others.
   */
  lemma MatchTasksExactly(nodes: seq<Node>, tasks: seq<TaskState>)
    ensures var all := MatchTasks(nodes, tasks);
            && AscendingBy(TaskItemName(), all)
            && (forall x :: x in NodeNames(nodes) || x in TaskNodes(tasks) <==>
                exists i :: 0 <= i < |all| && all[i].name == x)
            && (forall i :: 0 <= i < |all| ==> (all[i].node.Some? <==> all[i].name in NodeNames(nodes)))
            && (forall i :: 0 <= i < |all| && all[i].node.Some? ==>
                  exists k :: 0 <= k < |nodes| && all[i].node == Some(nodes[k]) && nodes[k].name == all[i].name
                              && forall j :: k < j < |nodes| ==> nodes[j].name != all[i].name)
            && (forall i, t :: 0 <= i < |all| ==>
                  multiset(all[i].tasks)[t] == if t.node == all[i].name then multiset(tasks)[t] else 0)
  {
    hide LastNode, TasksOn, Less, NodeNames, TaskNodes, SortNames;
    var all := MatchTasks(nodes, tasks);
    var names := SortNames(NodeNames(nodes) + TaskNodes(tasks));
    assert forall i :: 0 <= i < |all| ==> all[i].name == names[i];
    forall x
      ensures x in NodeNames(nodes) || x in TaskNodes(tasks) <==> exists i :: 0 <= i < |all| && all[i].name == x
    {
      assert x in names <==> x in NodeNames(nodes) + TaskNodes(tasks);
    }
    forall i | 0 <= i < |all| ensures all[i].node.Some? <==> all[i].name in NodeNames(nodes) {
      LastNodeFound(nodes, names[i]);
    }
    forall i | 0 <= i < |all| && all[i].node.Some?
      ensures exists k :: 0 <= k < |nodes| && all[i].node == Some(nodes[k]) && nodes[k].name == all[i].name
                          && forall j :: k < j < |nodes| ==> nodes[j].name != all[i].name
    {
      LastNodeIsLast(nodes, names[i]);
    }
    forall i, t: TaskState | 0 <= i < |all|
      ensures multiset(all[i].tasks)[t] == if t.node == all[i].name then multiset(tasks)[t] else 0
    {
      TasksOnCounts(tasks, names[i], t);
    }
  }

  /** The same for groups: of the planned and of the current groups of a name the last one is kept. */
  lemma MatchGroupsExactly(desired: seq<GroupSpec>, current: seq<GroupState>)
    ensures var all := MatchGroups(desired, current);
            && AscendingBy(GroupItemName(), all)
            && (forall x :: x in SpecNames(desired) || x in GroupNames(current) <==>
                exists i :: 0 <= i < |all| && all[i].name == x)
            && (forall i :: 0 <= i < |all| ==> (all[i].planned.Some? <==> all[i].name in SpecNames(desired)))
            && (forall i :: 0 <= i < |all| && all[i].planned.Some? ==>
                  exists k :: 0 <= k < |desired| && all[i].planned == Some(desired[k]) && desired[k].name == all[i].name
                              && forall j :: k < j < |desired| ==> desired[j].name != all[i].name)
            && (forall i :: 0 <= i < |all| ==> (all[i].current.Some? <==> all[i].name in GroupNames(current)))
            && (forall i :: 0 <= i < |all| && all[i].current.Some? ==>
                  exists k ::
                    0 <= k < |current| && all[i].current == Some(current[k]) && current[k].spec.name == all[i].name
                    && forall j :: k < j < |current| ==> current[j].spec.name != all[i].name)
  {
    hide LastPlanned, LastCurrent, Less, SpecNames, GroupNames, SortNames;
    var all := MatchGroups(desired, current);
    var names := SortNames(SpecNames(desired) + GroupNames(current));
    assert forall i :: 0 <= i < |all| ==> all[i].name == names[i];
    forall x
      ensures x in SpecNames(desired) || x in GroupNames(current) <==> exists i :: 0 <= i < |all| && all[i].name == x
    {
      assert x in names <==> x in SpecNames(desired) + GroupNames(current);
    }
    forall i | 0 <= i < |all|
      ensures all[i].planned.Some? <==> all[i].name in SpecNames(desired)
      ensures all[i].current.Some? <==> all[i].name in GroupNames(current)
    {
      LastPlannedFound(desired, names[i]);
      LastCurrentFound(current, names[i]);
    }
    forall i | 0 <= i < |all| && all[i].planned.Some?
      ensures exists k :: 0 <= k < |desired| && all[i].planned == Some(desired[k]) && desired[k].name == all[i].name
                          && forall j :: k < j < |desired| ==> desired[j].name != all[i].name
    {
      LastPlannedIsLast(desired, names[i]);
    }
    forall i | 0 <= i < |all| && all[i].current.Some?
      ensures exists k ::
                0 <= k < |current| && all[i].current == Some(current[k]) && current[k].spec.name == all[i].name
                && forall j :: k < j < |current| ==> current[j].spec.name != all[i].name
    {
      LastCurrentIsLast(current, names[i]);
    }
  }
}
