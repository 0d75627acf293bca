/** What the plans promise: their order, their selectors, the nodes they cover, and whether they can complete. */
module Workflows {
  import opened Names
  import opened Api
  import opened Matching
  import opened Machine
  import opened Schedule
  import opened Safety
  import opened Guarantees
  import opened Modes
  import opened Liveness
  import opened Lists
  import opened Plans
  import opened Selectors

  // ---- the order in which a plan is carried out ----

  lemma {:induction false} LastPlannedAt(desired: seq<GroupSpec>, i: nat)
    requires i < |desired| && forall a, b :: 0 <= a < b < |desired| ==> desired[a].name != desired[b].name
    ensures LastPlanned(desired, desired[i].name) == Some(desired[i])
  {
    if i < |desired| - 1 { LastPlannedAt(desired[..|desired| - 1], i); }
  }

  /**
   * A plan is carried out in its own order exactly when its names are strictly ascending; the order label plays no
   * part.
   */
  lemma PlanOrderSurvives(cfg: Config)
    ensures Planned(cfg) == cfg.desired <==> StrictlyAscending(SpecNames(cfg.desired))
  {
    var d := cfg.desired;
    var names := SpecNames(d);
    if StrictlyAscending(names) {
      SortNamesFixed(names);
      forall a, b | 0 <= a < b < |d| ensures d[a].name != d[b].name {
        LessIrreflexive(names[a]);
        assert Less(names[a], names[b]);
      }
      forall i | 0 <= i < |d| ensures Planned(cfg)[i] == d[i] { LastPlannedAt(d, i); }
    }
  }

  /** A custom workflow runs in workflow order exactly when its names are strictly ascending. */
  lemma CustomOrder(op: Request, workflow: seq<GroupSpec>, nodes: seq<Node>)
    ensures var plan := CustomPlan(op, workflow);
            Planned(Config(plan, nodes)) == plan <==> StrictlyAscending(SpecNames(workflow))
  {
    hide Planned, GroupLabels;
    var plan := CustomPlan(op, workflow);
    PlanOrderSurvives(Config(plan, nodes));
    assert SpecNames(plan) == SpecNames(workflow);
  }

  lemma UpgradeNames(op: Request)
    ensures var n := SpecNames(UpgradePlan(op));
            |n| == 3 && n[0] == op.name + "-01-upgrade-cp-1" && n[1] == op.name + "-02-upgrade-cp-n"
              && n[2] == op.name + "-02-upgrade-w"
  {
    hide GroupLabels;
    assert op.name + "-" + "01" + "-" + "upgrade-cp-1" == op.name + "-01-upgrade-cp-1";
    assert op.name + "-" + "02" + "-" + "upgrade-cp-n" == op.name + "-02-upgrade-cp-n";
    assert op.name + "-" + "02" + "-" + "upgrade-w" == op.name + "-02-upgrade-w";
  }

  lemma {:induction false} LessAfterCommon(p: string, a: string, b: string)
    requires a != "" && b != "" && a[0] < b[0]
    ensures Less(p + a, p + b)
  {
    LessPrefix(p, a, b);
  }

  /** Whatever the operation is called: first control plane, then the others, then the workers. */
  lemma UpgradeOrder(op: Request, nodes: seq<Node>)
    ensures Planned(Config(UpgradePlan(op), nodes)) == UpgradePlan(op)
  {
    hide Planned, UpgradePlan, Less;
    var n := SpecNames(UpgradePlan(op));
    UpgradeNames(op);
    LessAfterCommon(op.name + "-0", "1-upgrade-cp-1", "2-upgrade-cp-n");
    assert op.name + "-0" + "1-upgrade-cp-1" == n[0] && op.name + "-0" + "2-upgrade-cp-n" == n[1];
    LessAfterCommon(op.name + "-02-upgrade-", "cp-n", "w");
    assert op.name + "-02-upgrade-" + "cp-n" == n[1] && op.name + "-02-upgrade-" + "w" == n[2];
    LessTransitive(n[0], n[1], n[2]);
    assert StrictlyAscending(n);
    PlanOrderSurvives(Config(UpgradePlan(op), nodes));
  }

  // ---- the nodes that an upgrade covers ----

  lemma {:induction false} SelectedNodes(nodes: seq<Node>, s: LabelSelector)
    ensures forall n :: n in SelectNodes(nodes, s) <==> n in nodes && Selects(s, n.labels)
    ensures DistinctKeys(NodeName(), nodes) ==> DistinctKeys(NodeName(), SelectNodes(nodes, s))
  {
    if nodes != [] {
      var t, z := nodes[..|nodes| - 1], nodes[|nodes| - 1];
      SelectedNodes(t, s);
      assert nodes == t + [z];
      var r := SelectNodes(t, s);
      forall i | 0 <= i < |r| && DistinctKeys(NodeName(), nodes) ensures r[i].name != z.name {
        assert r[i] in t;
        var k :| 0 <= k < |t| && t[k] == r[i];
        assert NodeName()(nodes[k]) != NodeName()(nodes[|t|]);
      }
    }
  }

  /** Head and Tail split the selected nodes, in name order, after the first. */
  lemma HeadAndTail(selected: seq<Node>)
    requires DistinctKeys(NodeName(), selected)
    ensures var head, tail := FilterNodes(selected, FilterHead), FilterNodes(selected, FilterTail);
            && |SortNames(NodeNames(head))| == (if selected == [] then 0 else 1)
            && (selected == [] ==> SortNames(NodeNames(tail)) == [])
            && SortNames(NodeNames(head)) + SortNames(NodeNames(tail)) == SortNames(NodeNames(selected))
  {
    hide SortBy, SortNames, Less;
    if selected == [] {
      SortNamesFixed([]);
      assert NodeNames(selected) == [];
    } else {
      SortByProperties(NodeName(), selected);
      SortByAscending(NodeName(), selected);
      SortedSplit(SortBy(NodeName(), selected));
      SameNodeNames(SortBy(NodeName(), selected), selected);
    }
  }

  lemma SortedSplit(sorted: seq<Node>)
    requires sorted != [] && AscendingBy(NodeName(), sorted)
    ensures |SortNames(NodeNames(sorted[..1]))| == 1
    ensures SortNames(NodeNames(sorted[..1])) + SortNames(NodeNames(sorted[1..])) == SortNames(NodeNames(sorted))
  {
    hide SortNames, Less;
    var all := NodeNames(sorted);
    forall i, j | 0 <= i < j < |all| ensures Less(all[i], all[j]) {
      assert Less(NodeName()(sorted[i]), NodeName()(sorted[j]));
    }
    assert NodeNames(sorted[..1]) == all[..1] && NodeNames(sorted[1..]) == all[1..];
    SortNamesFixed(all);
    SortNamesFixed(all[..1]);
    SortNamesFixed(all[1..]);
    assert all[..1] + all[1..] == all;
  }

  lemma SameNodeNames(a: seq<Node>, b: seq<Node>)
    requires forall n :: n in a <==> n in b
    ensures SortNames(NodeNames(a)) == SortNames(NodeNames(b))
  {
    forall x ensures x in NodeNames(a) <==> x in NodeNames(b) {
      NameIn(a, b, x);
      NameIn(b, a, x);
    }
    SortNamesSame(NodeNames(a), NodeNames(b));
  }

  /** A node with an empty master label. */
  predicate IsControlPlane(n: Node)
  {
    "node-role.kubernetes.io/master" in n.labels && n.labels["node-role.kubernetes.io/master"] == ""
  }

  predicate IsWorker(n: Node) { "node-role.kubernetes.io/master" !in n.labels }

  function UpgradeNodes(op: Request, nodes: seq<Node>, group: nat): seq<string>
    requires group < 3
  {
    NodesOf(Config(UpgradePlan(op), nodes), UpgradePlan(op)[group])
  }

  lemma {:induction false} UpgradeSelects(op: Request, nodes: seq<Node>)
    ensures var cp := SelectNodes(nodes, CONTROL_PLANE);
            && UpgradeNodes(op, nodes, 0) == SortNames(NodeNames(FilterNodes(cp, FilterHead)))
            && UpgradeNodes(op, nodes, 1) == SortNames(NodeNames(FilterNodes(cp, FilterTail)))
            && UpgradeNodes(op, nodes, 2) == SortNames(NodeNames(SelectNodes(nodes, WORKERS)))
  {
    hide SortNames, SelectNodes, SortBy, CONTROL_PLANE, WORKERS, GroupLabels;
  }

  lemma WorkersSelect(n: Node)
    ensures Selects(WORKERS, n.labels) <==> IsWorker(n)
  {
    assert WORKERS.matchExpressions[0] in WORKERS.matchExpressions;
  }

  lemma {:induction false} SelectedNames(nodes: seq<Node>, s: LabelSelector, x: string)
    ensures x in SortNames(NodeNames(SelectNodes(nodes, s))) <==>
        exists n <- nodes :: n.name == x && Selects(s, n.labels)
  {
    hide SortNames, SelectNodes, Selects;
    SelectedNodes(nodes, s);
    var r := SelectNodes(nodes, s);
    if x in NodeNames(r) {
      var i :| 0 <= i < |r| && NodeNames(r)[i] == x;
      assert r[i] in r;
    }
    if n :| n in nodes && n.name == x && Selects(s, n.labels) {
      var i :| 0 <= i < |r| && r[i] == n;
      assert NodeNames(r)[i] == x;
    }
  }

  /**
   * The first group upgrades at most one node, the second the control plane nodes after it by name, the third the
   * workers: together the first two visit the control plane in name order.
   */
  lemma UpgradeCoverage(op: Request, nodes: seq<Node>)
    requires DistinctKeys(NodeName(), nodes)
    ensures var cp1, cpn, w := UpgradeNodes(op, nodes, 0), UpgradeNodes(op, nodes, 1), UpgradeNodes(op, nodes, 2);
            && |cp1| <= 1 && (cp1 == [] ==> cpn == [])
            && StrictlyAscending(cp1 + cpn) && StrictlyAscending(w)
            && (forall x :: x in cp1 + cpn <==> exists n <- nodes :: n.name == x && IsControlPlane(n))
            && (forall x :: x in w <==> exists n <- nodes :: n.name == x && IsWorker(n))
  {
    hide SortNames, FilterNodes, SelectNodes, UpgradeNodes, Less;
    UpgradeSelects(op, nodes);
    SelectedNodes(nodes, CONTROL_PLANE);
    HeadAndTail(SelectNodes(nodes, CONTROL_PLANE));
    assert forall n: Node :: Selects(CONTROL_PLANE, n.labels) <==> IsControlPlane(n);
    forall n: Node ensures Selects(WORKERS, n.labels) <==> IsWorker(n) { WorkersSelect(n); }
    forall x
      ensures x in SortNames(NodeNames(SelectNodes(nodes, CONTROL_PLANE))) <==>
          exists n <- nodes :: n.name == x && IsControlPlane(n)
    {
      SelectedNames(nodes, CONTROL_PLANE, x);
    }
    forall x
      ensures x in SortNames(NodeNames(SelectNodes(nodes, WORKERS))) <==>
          exists n <- nodes :: n.name == x && IsWorker(n)
    {
      SelectedNames(nodes, WORKERS, x);
    }
  }

  lemma UpgradeSlots(op: Request, nodes: seq<Node>)
    ensures var cfg, plan := Config(UpgradePlan(op), nodes), UpgradePlan(op);
            AllSlots(cfg) == UpgradeSlotsOf(op, nodes, 0) + UpgradeSlotsOf(op, nodes, 1) + UpgradeSlotsOf(op, nodes, 2)
  {
    hide Planned, SlotsOf, UpgradePlan, Made, NodesOf;
    UpgradeOrder(op, nodes);
    UpgradeNames(op);
    var cfg, plan := Config(UpgradePlan(op), nodes), UpgradePlan(op);
    forall i: nat | i < 3 ensures SlotsOf(cfg, i) == UpgradeSlotsOf(op, nodes, i) { UpgradeMade(op, nodes, i); }
    assert Slots(cfg, 0) == [];
    assert Slots(cfg, 1) == Slots(cfg, 0) + SlotsOf(cfg, 0) == SlotsOf(cfg, 0);
    assert Slots(cfg, 2) == Slots(cfg, 1) + SlotsOf(cfg, 1);
    assert Slots(cfg, 3) == Slots(cfg, 2) + SlotsOf(cfg, 2);
  }

  function UpgradeSlotsOf(op: Request, nodes: seq<Node>, i: nat): seq<Slot>
    requires i < 3
  {
    SlotsOn(UpgradePlan(op)[i], UpgradeNodes(op, nodes, i))
  }

  lemma {:induction false} UpgradeMade(op: Request, nodes: seq<Node>, i: nat)
    requires i < 3 && i < |Planned(Config(UpgradePlan(op), nodes))|
    requires Planned(Config(UpgradePlan(op), nodes))[i] == UpgradePlan(op)[i]
    ensures Made(Config(UpgradePlan(op), nodes), i) == UpgradeNodes(op, nodes, i)
  {
    hide Planned, NodesOf, Listable, Finds, LabelledApart, AllAgree, GroupLabels, Borrowed;
    var cfg := Config(UpgradePlan(op), nodes);
    UpgradeLabelledApart(op);
    LabelsSeparate(cfg);
    PlainAgree(cfg);
    assert Planned(cfg)[i] in Planned(cfg);
  }

  lemma UpgradeCommands(op: Request)
    ensures var plan := UpgradePlan(op);
            && KubeadmUpgradeApply in plan[0].commands && KubeadmUpgradeApply !in plan[1].commands
                && KubeadmUpgradeApply !in plan[2].commands
            && KubectlDrain !in plan[0].commands && KubectlDrain !in plan[1].commands
                && KubectlDrain in plan[2].commands
            && plan[2].commands[0] == KubectlDrain && plan[2].commands[|plan[2].commands| - 1] == KubectlUncordon
  {
    hide GroupLabels;
  }

  /**
   * `kubeadm upgrade apply` is for the first task only, which is on the first control plane node by name;
   * a task drains its node exactly if it is in the workers' group, and then it drains first and uncordons last.
   */
  lemma UpgradeAppliesFirst(op: Request, nodes: seq<Node>, a: nat)
    requires DistinctKeys(NodeName(), nodes) && a < |AllSlots(Config(UpgradePlan(op), nodes))|
    ensures var slot := AllSlots(Config(UpgradePlan(op), nodes))[a];
            && (KubeadmUpgradeApply in slot.spec.commands <==> a == 0 && UpgradeNodes(op, nodes, 0) == [slot.node])
            && (KubectlDrain in slot.spec.commands <==> slot.spec == UpgradePlan(op)[2])
            && (KubectlDrain in slot.spec.commands ==>
                  slot.spec.commands[0] == KubectlDrain
                    && slot.spec.commands[|slot.spec.commands| - 1] == KubectlUncordon)
  {
    hide UpgradePlan, Planned, NodesOf, DistinctKeys, Less;
    UpgradeNames(op);
    UpgradeSlots(op, nodes);
    UpgradeCoverage(op, nodes);
    UpgradeCommands(op);
    var cfg, plan := Config(UpgradePlan(op), nodes), UpgradePlan(op);
    var s0, s1, s2 := UpgradeSlotsOf(op, nodes, 0), UpgradeSlotsOf(op, nodes, 1), UpgradeSlotsOf(op, nodes, 2);
    assert |s0| == |UpgradeNodes(op, nodes, 0)| <= 1;
    var slot := AllSlots(cfg)[a];
    if a < |s0| {
      assert slot == s0[a] && UpgradeNodes(op, nodes, 0) == [slot.node];
    } else if a < |s0| + |s1| {
      assert slot == s1[a - |s0|];
    } else {
      assert slot == s2[a - |s0| - |s1|];
    }
  }

  function SlotNodes(slots: seq<Slot>): (r: seq<string>)
    ensures |r| == |slots| && forall i :: 0 <= i < |r| ==> r[i] == slots[i].node
  {
    seq(|slots|, i requires 0 <= i < |slots| => slots[i].node)
  }

  lemma {:induction false} AscendingOnce(s: seq<string>, x: string)
    requires StrictlyAscending(s)
    ensures multiset(s)[x] == if x in s then 1 else 0
  {
    if s != [] {
      AscendingOnce(s[1..], x);
      assert s == [s[0]] + s[1..];
      if s[0] in s[1..] { LessIrreflexive(s[0]); }
    }
  }

  /**
   * An upgrade visits a control plane node or worker exactly once, and a node with any other master label not at all.
   */
  lemma UpgradeVisitsOnce(op: Request, nodes: seq<Node>, n: Node)
    requires DistinctKeys(NodeName(), nodes) && n in nodes
    ensures multiset(SlotNodes(AllSlots(Config(UpgradePlan(op), nodes))))[n.name] ==
              if IsControlPlane(n) || IsWorker(n) then 1 else 0
  {
    hide Slots, NodesOf, UpgradePlan, Less, Planned, AllSlots, DistinctKeys;
    var cfg, plan := Config(UpgradePlan(op), nodes), UpgradePlan(op);
    UpgradeNames(op);
    UpgradeSlots(op, nodes);
    UpgradeAscends(op, nodes);
    var cp, w := UpgradeNodes(op, nodes, 0) + UpgradeNodes(op, nodes, 1), UpgradeNodes(op, nodes, 2);
    assert SlotNodes(AllSlots(cfg)) == cp + w;
    AscendingOnce(cp, n.name);
    AscendingOnce(w, n.name);
    CoverageOf(op, nodes, n);
  }

  lemma UpgradeAscends(op: Request, nodes: seq<Node>)
    requires DistinctKeys(NodeName(), nodes)
    ensures StrictlyAscending(UpgradeNodes(op, nodes, 0) + UpgradeNodes(op, nodes, 1))
        && StrictlyAscending(UpgradeNodes(op, nodes, 2))
  {
    hide UpgradeNodes, DistinctKeys, Less;
    UpgradeCoverage(op, nodes);
  }

  lemma CoverageOf(op: Request, nodes: seq<Node>, n: Node)
    requires DistinctKeys(NodeName(), nodes) && n in nodes
    ensures n.name in UpgradeNodes(op, nodes, 0) + UpgradeNodes(op, nodes, 1) <==> IsControlPlane(n)
    ensures n.name in UpgradeNodes(op, nodes, 2) <==> IsWorker(n)
  {
    hide UpgradeNodes, IsControlPlane, IsWorker, DistinctKeys;
    UpgradeCoverage(op, nodes);
    OneNodePerName(nodes, n);
  }

  lemma OneNodePerName(nodes: seq<Node>, n: Node)
    requires DistinctKeys(NodeName(), nodes) && n in nodes
    ensures forall m <- nodes :: m.name == n.name ==> m == n
  {
    var i :| 0 <= i < |nodes| && nodes[i] == n;
    forall m | m in nodes && m.name == n.name ensures m == n {
      var j :| 0 <= j < |nodes| && nodes[j] == m;
      assert NodeName()(nodes[i]) == NodeName()(nodes[j]);
    }
  }

  /**
   * Every run of an upgrade works through the first control plane node, the other ones by name, then the workers by
   * name.
   */
  lemma UpgradeRunOrder(op: Request, nodes: seq<Node>, states: seq<Cluster>, events: seq<Event>, i: nat)
    requires TaskGroupList(op) == Some(UpgradePlan(op)) && IsRun(Config(UpgradePlan(op), nodes), states, events)
        && i <= |events|
    ensures var cfg, plan := Config(UpgradePlan(op), nodes), UpgradePlan(op);
            var program :=
              Program(UpgradeSlotsOf(op, nodes, 0) + UpgradeSlotsOf(op, nodes, 1) + UpgradeSlotsOf(op, nodes, 2));
            states[i].resolved <= program && (states[i].operation.completed ==> states[i].resolved == program)
  {
    hide UpgradePlan, IsRun, UpgradeSlotsOf, AllSlots, Program, TaskGroupList, ProperRun;
    UpgradeSlots(op, nodes);
    UpgradeRunsAreProper(op, nodes, states, events);
    RunFollowsProgram(Config(UpgradePlan(op), nodes), states, events, i);
  }

  lemma UpgradeRunsAreProper(op: Request, nodes: seq<Node>, states: seq<Cluster>, events: seq<Event>)
    requires IsRun(Config(UpgradePlan(op), nodes), states, events)
    ensures ProperRun(Config(UpgradePlan(op), nodes), states, events)
  {
    hide IsRun, ProperRun;
    BuiltInRunsAreProper(op.(upgrade := true, renewCertificates := false), nodes, states, events);
  }

  // ---- task names ----

  /** Task `g-n` is also task `h-m`: the group name `h` runs on into the node name `n`. */
  predicate Clash(g: string, n: string, h: string, m: string)
  {
    g + "-" <= h && n == h[|g| + 1..] + "-" + m
  }

  lemma ClashIsSameName(g: string, n: string, h: string, m: string)
    ensures g != h ==> (TaskName(g, n) == TaskName(h, m) <==> Clash(g, n, h, m) || Clash(h, m, g, n))
  {
    if Clash(g, n, h, m) {
      assert h == g + "-" + h[|g| + 1..];
    }
    if Clash(h, m, g, n) {
      assert g == h + "-" + g[|h| + 1..];
    }
    if g != h && TaskName(g, n) == TaskName(h, m) {
      if |g| < |h| {
        SplitName(g, n, h, m);
      } else if |h| < |g| {
        SplitName(h, m, g, n);
      } else {
        SameLength(g, n, h, m);
      }
    }
  }

  lemma SameLength(g: string, n: string, h: string, m: string)
    requires |g| == |h| && TaskName(g, n) == TaskName(h, m)
    ensures g == h
  {
    assert g == TaskName(g, n)[..|g|] && h == TaskName(h, m)[..|h|];
  }

  lemma SplitName(g: string, n: string, h: string, m: string)
    requires |g| < |h| && TaskName(g, n) == TaskName(h, m)
    ensures Clash(g, n, h, m)
  {
    var s := TaskName(g, n);
    assert g + "-" == s[..|g| + 1] && h == s[..|h|] && n == s[|g| + 1..];
    assert h[|g| + 1..] + "-" + m == s[|g| + 1..];
  }

  /** Some node that one planned group makes a task on, and some node of another, give both the same task name. */
  ghost predicate NamesClash(cfg: Config)
  {
    var p := Planned(cfg);
    exists i, j, n, m :: 0 <= i < |p| && 0 <= j < |p| && n in Made(cfg, i) && m in Made(cfg, j)
                         && Clash(p[i].name, n, p[j].name, m)
  }

  /** Task names are distinct exactly when no group name runs on into a node name. */
  lemma DistinctExactly(cfg: Config)
    ensures DistinctTaskNames(cfg) <==> !NamesClash(cfg)
  {
    hide Planned, Made, Clash, TaskName, Slots;
    var p, s := Planned(cfg), AllSlots(cfg);
    if NamesClash(cfg) {
      var i, j, n, m :| 0 <= i < |p| && 0 <= j < |p| && n in Made(cfg, i) && m in Made(cfg, j)
                        && Clash(p[i].name, n, p[j].name, m);
      ClashDiffers(p[i].name, n, p[j].name, m);
      ClashIsSameName(p[i].name, n, p[j].name, m);
      var a := SlotOf(cfg, i, n);
      var b := SlotOf(cfg, j, m);
      assert a != b;
      assert !DistinctTaskNames(cfg) by { assert a < b || b < a; }
    }
    if !DistinctTaskNames(cfg) {
      var a, b :| 0 <= a < b < |s| && TaskName(s[a].spec.name, s[a].node) == TaskName(s[b].spec.name, s[b].node);
      var i, n := SlotAnyGroup(cfg, a);
      var j, m := SlotAnyGroup(cfg, b);
      ClashIsSameName(p[i].name, n, p[j].name, m);
      if i == j { SameSlot(cfg, i, a, b); }
      if p[i].name == p[j].name { AscendingDistinct(SpecNames(p), i, j); }
    }
  }

  lemma ClashDiffers(g: string, n: string, h: string, m: string)
    requires Clash(g, n, h, m)
    ensures g != h
  {
  }

  lemma SlotOf(cfg: Config, i: nat, n: string) returns (a: nat)
    requires i < |Planned(cfg)| && n in Made(cfg, i)
    ensures a < |AllSlots(cfg)| && AllSlots(cfg)[a] == Slot(Planned(cfg)[i], n)
  {
    hide Planned, Made;
    var ns := Made(cfg, i);
    var k :| 0 <= k < |ns| && ns[k] == n;
    a := |Slots(cfg, i)| + k;
    SlotAt(cfg, i, |Planned(cfg)|, a);
  }

  lemma SlotAnyGroup(cfg: Config, a: nat) returns (i: nat, n: string)
    requires a < |AllSlots(cfg)|
    ensures i < |Planned(cfg)| && n in Made(cfg, i) && AllSlots(cfg)[a] == Slot(Planned(cfg)[i], n)
    ensures |Slots(cfg, i)| <= a < |Slots(cfg, i + 1)|
  {
    hide Planned, Made;
    i := SlotGroup(cfg, |Planned(cfg)|, a);
    SlotAt(cfg, i, |Planned(cfg)|, a);
    SlotCount(cfg, i);
    n := Made(cfg, i)[a - |Slots(cfg, i)|];
  }

  lemma SameSlot(cfg: Config, i: nat, a: nat, b: nat)
    requires i < |Planned(cfg)| && |Slots(cfg, i)| <= a < b < |Slots(cfg, i + 1)|
    requires b < |AllSlots(cfg)|
    ensures TaskName(AllSlots(cfg)[a].spec.name, AllSlots(cfg)[a].node)
         != TaskName(AllSlots(cfg)[b].spec.name, AllSlots(cfg)[b].node)
  {
    hide Planned, Made;
    var ns, g := Made(cfg, i), Planned(cfg)[i].name;
    SlotCount(cfg, i);
    SlotAt(cfg, i, |Planned(cfg)|, a);
    SlotAt(cfg, i, |Planned(cfg)|, b);
    var x, y := ns[a - |Slots(cfg, i)|], ns[b - |Slots(cfg, i)|];
    NodesAscend(cfg, i);
    LessIrreflexive(x);
    assert x == TaskName(g, x)[|g| + 1..] && y == TaskName(g, y)[|g| + 1..];
  }

  lemma {:induction false} NodesAscend(cfg: Config, i: nat)
    requires i < |Planned(cfg)|
    ensures StrictlyAscending(Made(cfg, i))
  {
  }

  // ---- which plans complete ----

  /**
   * Every plan there is completes on its own exactly when each group finds its own tasks, or those of an earlier group
   * on just its nodes, no names clash and, outside dry run, every task has a command.
   */
  lemma PlanCompletesExactly(op: Request, nodes: seq<Node>, c: Cluster)
    requires TaskGroupList(op).Some? && Initial(c) && !c.operation.specPaused
    ensures var cfg := Config(TaskGroupList(op).value, nodes);
            Completable(cfg, c) <==>
              SelectorsWork(cfg) && !NamesClash(cfg)
                && (TypedMode(c.operation.mode) == DryRun || CommandsEverywhere(cfg))
  {
    hide TaskGroupList, SelectorsSingle, SelectorsWork, DistinctTaskNames, NamesClash, CommandsEverywhere, TypedMode,
         Initial, Completable;
    var cfg := Config(TaskGroupList(op).value, nodes);
    PlansSingle(op, nodes);
    CompletesExactly(cfg, c);
    DistinctExactly(cfg);
  }

  /** In no run at all does an operation complete whose selectors do not work or whose task names clash. */
  lemma RunCompletesOnlyIf(cfg: Config, states: seq<Cluster>, events: seq<Event>, i: nat)
    requires ProperRun(cfg, states, events) && i <= |events| && states[i].operation.completed
    ensures SelectorsWork(cfg) && !NamesClash(cfg)
  {
    hide Planned, Inv, Next, Reads, ReadsInTime, SelectorsSingle, SelectorsWork, DistinctTaskNames, NamesClash, Evolves;
    RunKeeps(cfg, states, events);
    CompletedNames(cfg, states[i]);
    CompletedSelectors(cfg, states[i]);
    DistinctExactly(cfg);
  }

  /** No planned group name, followed by a dash, begins another. */
  ghost predicate PrefixFree(names: seq<string>)
  {
    forall i, j :: 0 <= i < |names| && 0 <= j < |names| ==> !(names[i] + "-" <= names[j])
  }

  lemma PrefixFreeIsEnough(cfg: Config)
    requires PrefixFree(SpecNames(Planned(cfg)))
    ensures !NamesClash(cfg)
  {
    hide Planned, Made;
    var p := Planned(cfg);
    forall i, j, n: string, m: string | 0 <= i < |p| && 0 <= j < |p| ensures !Clash(p[i].name, n, p[j].name, m) {
      assert !(SpecNames(p)[i] + "-" <= SpecNames(p)[j]);
    }
  }

  lemma CommandsOfPlan(cfg: Config)
    requires Planned(cfg) == cfg.desired && forall i :: 0 <= i < |cfg.desired| ==> cfg.desired[i].commands != []
    ensures CommandsEverywhere(cfg)
  {
    hide Planned, Slots, Made;
    forall s | s in AllSlots(cfg) ensures s.spec.commands != [] {
      var a :| 0 <= a < |AllSlots(cfg)| && AllSlots(cfg)[a] == s;
      var i, n := SlotAnyGroup(cfg, a);
    }
  }

  lemma UpgradePrefixFree(op: Request)
    ensures PrefixFree(SpecNames(UpgradePlan(op)))
  {
    hide UpgradePlan;
    UpgradeNames(op);
    var n := SpecNames(UpgradePlan(op));
    var x := |op.name|;
    assert n[0][x + 2] == '1' && n[1][x + 2] == '2' && n[2][x + 2] == '2' && n[1][x + 12] == 'c' && n[2][x + 12] == 'w';
  }

  /** The built-in plans complete, whatever the operation is called, whatever the nodes, in every mode. */
  lemma BuiltInPlansComplete(op: Request, nodes: seq<Node>, c: Cluster)
    requires (op.renewCertificates || op.upgrade) && Initial(c) && !c.operation.specPaused
    ensures Completable(Config(TaskGroupList(op).value, nodes), c)
  {
    hide Planned, NamesClash, CommandsEverywhere, TypedMode, Initial, Completable, GroupLabels, SelectorsSeparate,
         SelectorsWork, PrefixFree;
    var cfg := Config(TaskGroupList(op).value, nodes);
    if op.renewCertificates {
      PlanOrderSurvives(cfg);
      assert PrefixFree(SpecNames(cfg.desired)) by { RenewPrefixFree(op); }
    } else {
      UpgradeOrder(op, nodes);
      UpgradePrefixFree(op);
    }
    PrefixFreeIsEnough(cfg);
    CommandsOfPlan(cfg);
    BuiltInPlansSelect(op, nodes);
    PlanCompletesExactly(op, nodes, c);
  }

  lemma RenewPrefixFree(op: Request)
    ensures PrefixFree(SpecNames(RenewPlan(op)))
  {
  }

  /** A user's group of the given name that runs `pass` on every node. */
  function PassEverywhere(name: string): GroupSpec
  {
    GroupSpec(name, map[], LabelSelector(map[], []), LabelSelector(map[], []), "", [Pass])
  }

  /** Every node has a task of such a group. */
  lemma PassNodes(cfg: Config, op: Request, name: string, order: string, x: string)
    requires x in NodeNames(cfg.nodes)
    ensures x in NodesOf(cfg, CustomGroup(op, PassEverywhere(name), order))
  {
    hide SortNames, GroupLabels;
    var i :| 0 <= i < |cfg.nodes| && NodeNames(cfg.nodes)[i] == x;
    assert cfg.nodes[i] in cfg.nodes;
    SelectedNodes(cfg.nodes, LabelSelector(map[], []));
    SelectedNames(cfg.nodes, LabelSelector(map[], []), x);
  }

  const BLOCKED_WORKFLOW := [PassEverywhere("a"), PassEverywhere("a-b")]
  const BLOCKED_NODES := [Node("b-c", map[]), Node("c", map[])]

  lemma BlockedNames(op: Request)
    ensures NamesClash(Config(CustomPlan(op, BLOCKED_WORKFLOW), BLOCKED_NODES))
  {
    hide Planned, GroupLabels, NodesOf, TwoDigits, Clash, AllAgree, Finds, Listable, LabelledApart, SelectorsSeparate,
         Borrowed;
    var plan := CustomPlan(op, BLOCKED_WORKFLOW);
    var cfg := Config(plan, BLOCKED_NODES);
    PlainAgree(cfg);
    CustomLabelledApart(op, BLOCKED_WORKFLOW);
    LabelsSeparate(cfg);
    assert Planned(cfg) == plan by {
      LessPrefix("a", "", "-b");
      assert "a" + "" == "a" && "a" + "-b" == "a-b";
      CustomOrder(op, BLOCKED_WORKFLOW, BLOCKED_NODES);
    }
    PassNodes(cfg, op, "a", TwoDigits(1), NodeNames(BLOCKED_NODES)[0]);
    PassNodes(cfg, op, "a-b", TwoDigits(2), NodeNames(BLOCKED_NODES)[1]);
    BlockedClash();
    assert Planned(cfg)[0] in Planned(cfg) && Planned(cfg)[1] in Planned(cfg);
    assert Clash(plan[0].name, "b-c", plan[1].name, "c");
  }

  lemma BlockedClash()
    ensures Clash("a", "b-c", "a-b", "c")
  {
    assert "a" + "-" == "a-" && "a-b"[2..] == "b" && "b" + "-" + "c" == "b-c";
  }

  /**
   * A workflow of two groups with commands, on two nodes, that completes in no run at all: both groups make task
   * `a-b-c`.
   */
  lemma WorkflowThatBlocks(op: Request, states: seq<Cluster>, events: seq<Event>, i: nat)
    requires IsRun(Config(CustomPlan(op, BLOCKED_WORKFLOW), BLOCKED_NODES), states, events) && i <= |events|
    ensures !states[i].operation.completed
  {
    hide NamesClash, IsRun, SelectorsWork, SelectorsSingle, AllAgree, AllFind, Listable, LabelledApart, GroupLabels,
         Planned, TwoDigits, Finds;
    var plan := CustomPlan(op, BLOCKED_WORKFLOW);
    var cfg := Config(plan, BLOCKED_NODES);
    BlockedNames(op);
    PlainAgree(cfg);
    CustomLabelledApart(op, BLOCKED_WORKFLOW);
    LabelsSeparate(cfg);
    LabelsSingle(cfg);
    EveryRunIsProper(cfg, states, events);
    RunLength(cfg, states, events);
    if states[i].operation.completed { RunCompletesOnlyIf(cfg, states, events, i); }
  }

  /**
   * A workflow of one group with nodes, whose selector expressions do not agree with its labels, completes in no run
   * at all.
   */
  lemma SelectorThatBlocks(
      op: Request, g: GroupSpec, nodes: seq<Node>, states: seq<Cluster>, events: seq<Event>, i: nat)
    requires var p := CustomGroup(op, g, TwoDigits(1));
             && !Agree(p.selector.matchExpressions, p.labels) && NodesOf(Config([p], nodes), p) != []
             && IsRun(Config([p], nodes), states, events) && i <= |events|
    ensures !states[i].operation.completed
  {
    hide NamesClash, IsRun, GroupLabels, Planned, TwoDigits, Finds, Listable, Agree, NodesOf;
    var p := CustomGroup(op, g, TwoDigits(1));
    var cfg := Config([p], nodes);
    PlanOrderSurvives(cfg);
    assert SpecNames(cfg.desired) == [p.name];
    assert Planned(cfg)[0] == p;
    FindsExactly(p);
    assert !Works(cfg, 0);
    EveryRunIsProper(cfg, states, events);
    RunLength(cfg, states, events);
    if states[i].operation.completed { RunCompletesOnlyIf(cfg, states, events, i); }
  }
}
