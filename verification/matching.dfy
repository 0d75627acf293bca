/** Matching of desired and current objects, and the six derived views. */
module Matching {
  import opened Names
  import opened Api

  // ---- the six views over any list of items ----

  datatype View = ToBeCreated | Pending | Running | Completed | Failed | Invalid

  datatype Views<T> = Views(
    all: seq<T>, invalid: seq<T>, tobeCreated: seq<T>, pending: seq<T>,
    running: seq<T>, completed: seq<T>, failed: seq<T>)
  {
    function Active(): nat { |pending| + |running| }

    function Counters(): Counters
    {
      Api.Counters(|all|, |running|, |completed|, |failed|, |invalid|)
    }
  }

  function Pick<T>(cls: T -> View, v: View, s: seq<T>): seq<T>
  {
    if s == [] then []
    else Pick(cls, v, s[..|s| - 1]) + (if cls(s[|s| - 1]) == v then [s[|s| - 1]] else [])
  }

  function Derive<T>(cls: T -> View, all: seq<T>): Views<T>
  {
    Views(all, Pick(cls, Invalid, all), Pick(cls, ToBeCreated, all), Pick(cls, Pending, all),
          Pick(cls, Running, all), Pick(cls, Completed, all), Pick(cls, Failed, all))
  }

  /** A view holds items of its class only. */
  lemma {:induction false} PickSound<T>(cls: T -> View, v: View, s: seq<T>, i: nat)
    requires i < |Pick(cls, v, s)|
    ensures Pick(cls, v, s)[i] in s && cls(Pick(cls, v, s)[i]) == v
  {
    var t := s[..|s| - 1];
    if i < |Pick(cls, v, t)| {
      PickSound(cls, v, t, i);
    }
    assert s == t + [s[|s| - 1]];
  }

  /** A view holds every item exactly when every item is of its class. */
  lemma {:induction false} PickAll<T>(cls: T -> View, v: View, s: seq<T>)
    ensures |Pick(cls, v, s)| <= |s|
    ensures |Pick(cls, v, s)| == |s| <==> forall i :: 0 <= i < |s| ==> cls(s[i]) == v
  {
    if s != [] {
      var t := s[..|s| - 1];
      PickAll(cls, v, t);
      assert forall i :: 0 <= i < |t| ==> s[i] == t[i];
    }
  }

  /** A view is empty exactly when no item is of its class. */
  lemma {:induction false} PickNone<T>(cls: T -> View, v: View, s: seq<T>)
    ensures |Pick(cls, v, s)| == 0 <==> forall i :: 0 <= i < |s| ==> cls(s[i]) != v
  {
    if s != [] {
      var t := s[..|s| - 1];
      PickNone(cls, v, t);
      assert forall i :: 0 <= i < |t| ==> s[i] == t[i];
    }
  }

  lemma {:induction false} PickHead<T>(cls: T -> View, v: View, s: seq<T>, i: nat)
    requires i < |s| && cls(s[i]) == v && forall j :: 0 <= j < i ==> cls(s[j]) != v
    ensures Pick(cls, v, s) != [] && Pick(cls, v, s)[0] == s[i]
  {
    if i == |s| - 1 {
      PickNone(cls, v, s[..i]);
    } else {
      PickHead(cls, v, s[..|s| - 1], i);
    }
  }

  lemma {:induction false} PickMultiset<T>(cls: T -> View, v: View, s: seq<T>, x: T)
    ensures multiset(Pick(cls, v, s))[x] == if cls(x) == v then multiset(s)[x] else 0
  {
    if s != [] {
      PickMultiset(cls, v, s[..|s| - 1], x);
      assert s == s[..|s| - 1] + [s[|s| - 1]];
    }
  }

  lemma {:induction false} PickLength<T>(cls: T -> View, s: seq<T>)
    ensures |s| == |Pick(cls, ToBeCreated, s)| + |Pick(cls, Pending, s)| + |Pick(cls, Running, s)|
                   + |Pick(cls, Completed, s)| + |Pick(cls, Failed, s)| + |Pick(cls, Invalid, s)|
  {
    if s != [] { PickLength(cls, s[..|s| - 1]); }
  }

  /** Every item of `all` is in exactly one view, as often as in `all`. */
  lemma ViewsPartition<T>(cls: T -> View, all: seq<T>)
    ensures var w := Derive(cls, all);
            && |all| == |w.tobeCreated| + |w.pending| + |w.running| + |w.completed| + |w.failed| + |w.invalid|
            && (|w.completed| == |all| ==>
                  w.tobeCreated == [] && w.pending == [] && w.running == [] && w.failed == [] && w.invalid == [])
  {
    PickLength(cls, all);
  }

  lemma {:induction false} ViewCounts<T>(cls: T -> View, all: seq<T>, x: T)
    ensures multiset(all)[x] == multiset(Pick(cls, ToBeCreated, all))[x] + multiset(Pick(cls, Pending, all))[x]
                                + multiset(Pick(cls, Running, all))[x] + multiset(Pick(cls, Completed, all))[x]
                                + multiset(Pick(cls, Failed, all))[x] + multiset(Pick(cls, Invalid, all))[x]
  {
    PickMultiset(cls, ToBeCreated, all, x);
    PickMultiset(cls, Pending, all, x);
    PickMultiset(cls, Running, all, x);
    PickMultiset(cls, Completed, all, x);
    PickMultiset(cls, Failed, all, x);
    PickMultiset(cls, Invalid, all, x);
  }

  /** A list with strictly ascending names has views with strictly ascending names. */
  lemma {:induction false} ViewsAscending<T>(cls: T -> View, v: View, key: T -> string, s: seq<T>)
    requires AscendingBy(key, s)
    ensures AscendingBy(key, Pick(cls, v, s))
  {
    if s != [] {
      var t, z := s[..|s| - 1], s[|s| - 1];
      ViewsAscending(cls, v, key, t);
      var p := Pick(cls, v, t);
      forall i | 0 <= i < |p| ensures Less(key(p[i]), key(z)) {
        PickSound(cls, v, t, i);
        var k :| 0 <= k < |t| && t[k] == p[i];
        assert s[k] == p[i];
      }
    }
  }

  // ---- tasks against nodes ----

  datatype TaskItem = TaskItem(name: string, node: Option<Node>, tasks: seq<TaskState>)

  function TaskItemName(): TaskItem -> string { (i: TaskItem) => i.name }

  function LastNode(nodes: seq<Node>, name: string): Option<Node>
  {
    if nodes == [] then None
    else if nodes[|nodes| - 1].name == name then Some(nodes[|nodes| - 1])
    else LastNode(nodes[..|nodes| - 1], name)
  }

  function TasksOn(tasks: seq<TaskState>, name: string): seq<TaskState>
  {
    if tasks == [] then []
    else TasksOn(tasks[..|tasks| - 1], name) + (if tasks[|tasks| - 1].node == name then [tasks[|tasks| - 1]] else [])
  }

  function NodeNames(nodes: seq<Node>): (r: seq<string>)
    ensures |r| == |nodes| && forall i :: 0 <= i < |nodes| ==> r[i] == nodes[i].name
  {
    seq(|nodes|, i requires 0 <= i < |nodes| => nodes[i].name)
  }

  function TaskNodes(tasks: seq<TaskState>): (r: seq<string>)
    ensures |r| == |tasks| && forall i :: 0 <= i < |tasks| ==> r[i] == tasks[i].node
  {
    seq(|tasks|, i requires 0 <= i < |tasks| => tasks[i].node)
  }

  function TaskItemFor(nodes: seq<Node>, tasks: seq<TaskState>, name: string): TaskItem
  {
    TaskItem(name, LastNode(nodes, name), TasksOn(tasks, name))
  }

  /** One item per name in nodes or tasks, ascending by name. */
  function MatchTasks(nodes: seq<Node>, tasks: seq<TaskState>): seq<TaskItem>
  {
    var names := SortNames(NodeNames(nodes) + TaskNodes(tasks));
    seq(|names|, i requires 0 <= i < |names| => TaskItemFor(nodes, tasks, names[i]))
  }

  predicate IsFailed(t: TaskState)
  {
    t.error.Some? && TypedRecovery(t.recovery) == UnknownStrategy
  }

  function TaskClass(i: TaskItem): View
  {
    if i.node.None? then Invalid
    else if |i.tasks| == 0 then ToBeCreated
    else if |i.tasks| > 1 then Invalid
    else if IsFailed(i.tasks[0]) then Failed
    else if i.tasks[0].completed then Completed
    else if i.tasks[0].started then Running
    else Pending
  }

  function TaskViews(nodes: seq<Node>, tasks: seq<TaskState>): Views<TaskItem>
  {
    Derive(TaskClass, MatchTasks(nodes, tasks))
  }

  // ---- current groups against planned groups ----

  datatype GroupItem = GroupItem(name: string, planned: Option<GroupSpec>, current: Option<GroupState>)

  function GroupItemName(): GroupItem -> string { (i: GroupItem) => i.name }

  function LastPlanned(desired: seq<GroupSpec>, name: string): Option<GroupSpec>
  {
    if desired == [] then None
    else if desired[|desired| - 1].name == name then Some(desired[|desired| - 1])
    else LastPlanned(desired[..|desired| - 1], name)
  }

  function LastCurrent(current: seq<GroupState>, name: string): Option<GroupState>
  {
    if current == [] then None
    else if current[|current| - 1].spec.name == name then Some(current[|current| - 1])
    else LastCurrent(current[..|current| - 1], name)
  }

  function SpecNames(specs: seq<GroupSpec>): (r: seq<string>)
    ensures |r| == |specs| && forall i :: 0 <= i < |specs| ==> r[i] == specs[i].name
  {
    seq(|specs|, i requires 0 <= i < |specs| => specs[i].name)
  }

  function GroupNames(groups: seq<GroupState>): (r: seq<string>)
    ensures |r| == |groups| && forall i :: 0 <= i < |groups| ==> r[i] == groups[i].spec.name
  {
    seq(|groups|, i requires 0 <= i < |groups| => groups[i].spec.name)
  }

  function GroupItemFor(desired: seq<GroupSpec>, current: seq<GroupState>, name: string): GroupItem
  {
    GroupItem(name, LastPlanned(desired, name), LastCurrent(current, name))
  }

  function MatchGroups(desired: seq<GroupSpec>, current: seq<GroupState>): seq<GroupItem>
  {
    var names := SortNames(SpecNames(desired) + GroupNames(current));
    seq(|names|, i requires 0 <= i < |names| => GroupItemFor(desired, current, names[i]))
  }

  function GroupClass(i: GroupItem): View
  {
    if i.planned.None? then Invalid
    else if i.current.None? then ToBeCreated
    else if i.current.value.error.Some? then Failed
    else if i.current.value.completed then Completed
    else if i.current.value.started then Running
    else Pending
  }

  function GroupViews(desired: seq<GroupSpec>, current: seq<GroupState>): Views<GroupItem>
  {
    Derive(GroupClass, MatchGroups(desired, current))
  }

  // ---- facts about the lookups ----

  lemma {:induction false} LastNodeFound(nodes: seq<Node>, name: string)
    ensures LastNode(nodes, name).Some? <==> name in NodeNames(nodes)
    ensures LastNode(nodes, name).Some? ==>
        LastNode(nodes, name).value in nodes && LastNode(nodes, name).value.name == name
  {
    if nodes != [] {
      LastNodeFound(nodes[..|nodes| - 1], name);
      var t := nodes[..|nodes| - 1];
      assert NodeNames(nodes) == NodeNames(t) + [nodes[|nodes| - 1].name];
    }
  }

  lemma {:induction false} LastPlannedFound(desired: seq<GroupSpec>, name: string)
    ensures LastPlanned(desired, name).Some? <==> name in SpecNames(desired)
    ensures LastPlanned(desired, name).Some? ==>
              LastPlanned(desired, name).value in desired && LastPlanned(desired, name).value.name == name
  {
    if desired != [] {
      LastPlannedFound(desired[..|desired| - 1], name);
      assert SpecNames(desired) == SpecNames(desired[..|desired| - 1]) + [desired[|desired| - 1].name];
    }
  }

  lemma {:induction false} LastCurrentFound(current: seq<GroupState>, name: string)
    ensures LastCurrent(current, name).Some? <==> name in GroupNames(current)
    ensures LastCurrent(current, name).Some? ==>
              LastCurrent(current, name).value in current && LastCurrent(current, name).value.spec.name == name
  {
    if current != [] {
      LastCurrentFound(current[..|current| - 1], name);
      assert GroupNames(current) == GroupNames(current[..|current| - 1]) + [current[|current| - 1].spec.name];
    }
  }

  lemma {:induction false} LastCurrentAt(current: seq<GroupState>, i: nat)
    requires i < |current|
    requires forall a, b :: 0 <= a < b < |current| ==> current[a].spec.name != current[b].spec.name
    ensures LastCurrent(current, current[i].spec.name) == Some(current[i])
  {
    if i < |current| - 1 {
      LastCurrentAt(current[..|current| - 1], i);
    }
  }

  lemma {:induction false} TasksOnMembers(tasks: seq<TaskState>, name: string)
    ensures forall t :: t in TasksOn(tasks, name) <==> t in tasks && t.node == name
    ensures TasksOn(tasks, name) != [] <==> name in TaskNodes(tasks)
  {
    if tasks != [] {
      var u, z := tasks[..|tasks| - 1], tasks[|tasks| - 1];
      TasksOnMembers(u, name);
      assert tasks == u + [z];
      assert TaskNodes(tasks) == TaskNodes(u) + [z.node];
    }
  }

  lemma {:induction false} TasksOnSingle(tasks: seq<TaskState>, i: nat)
    requires i < |tasks|
    requires forall a, b :: 0 <= a < b < |tasks| ==> tasks[a].node != tasks[b].node
    ensures TasksOn(tasks, tasks[i].node) == [tasks[i]]
  {
    var u, z := tasks[..|tasks| - 1], tasks[|tasks| - 1];
    if i < |u| {
      TasksOnSingle(u, i);
    } else {
      TasksOnMembers(u, z.node);
      assert z.node !in TaskNodes(u);
    }
  }
}
