/** Which nodes and which commands the plans come to, said of the nodes, of the strings and of the lists of commands. */
module Coverage {
  import opened Names
  import opened Api
  import opened Matching
  import opened Machine
  import opened Schedule
  import opened Safety
  import opened Guarantees
  import opened Execution
  import opened Plans
  import opened Selectors
  import opened Workflows

  // ---- label selectors ----

  /**
   * No node meets "in" an empty list; a list is met if one of its parts is; and one value is met by just that label.
   */
  lemma InIsAnyOf(key: string, a: seq<string>, b: seq<string>, v: string, labels: Labels)
    ensures !Meets(Requirement(key, In, []), labels)
    ensures Meets(Requirement(key, In, a + b), labels) <==>
              Meets(Requirement(key, In, a), labels) || Meets(Requirement(key, In, b), labels)
    ensures Meets(Requirement(key, In, [v]), labels) <==> Selects(LabelSelector(map[key := v], []), labels)
    ensures Selects(LabelSelector(map[key := v], []), labels) <==> key in labels && labels[key] == v
  {
  }

  /**
   * The other operators: "not in" is the opposite of "in", "exists" is to have any value, and "does not exist" none.
   */
  lemma OperatorsMean(key: string, vs: seq<string>, ws: seq<string>, labels: Labels)
    ensures Meets(Requirement(key, NotIn, vs), labels) <==> !Meets(Requirement(key, In, vs), labels)
    ensures Meets(Requirement(key, Exists, ws), labels) <==> exists v :: Meets(Requirement(key, In, [v]), labels)
    ensures Meets(Requirement(key, DoesNotExist, ws), labels) <==> !Meets(Requirement(key, Exists, ws), labels)
  {
    if key in labels { assert Meets(Requirement(key, In, [labels[key]]), labels); }
  }

  /** A selector asks for all of its parts; an empty one for nothing. */
  lemma SelectsAll(m: Labels, l: Labels, rs: seq<Requirement>, qs: seq<Requirement>, labels: Labels)
    requires m.Keys !! l.Keys
    ensures Selects(LabelSelector(map[], []), labels)
    ensures Selects(LabelSelector(m + l, rs + qs), labels) <==>
              Selects(LabelSelector(m, rs), labels) && Selects(LabelSelector(l, qs), labels)
    ensures |rs| == 1 ==> (Selects(LabelSelector(map[], rs), labels) <==> Meets(rs[0], labels))
  {
    forall r ensures r in rs + qs <==> r in rs || r in qs {}
    if |rs| == 1 { assert rs[0] in rs; }
  }

  /** A selector is refused for one of its expressions: one with values too many or too few, or an unknown operator. */
  lemma RefusedExactly(m: Labels, rs: seq<Requirement>, qs: seq<Requirement>, key: string, vs: seq<string>)
    ensures IsSelector(LabelSelector(m, []))
    ensures IsSelector(LabelSelector(m, rs + qs)) <==>
              IsSelector(LabelSelector(m, rs)) && IsSelector(LabelSelector(m, qs))
    ensures IsSelector(LabelSelector(m, [Requirement(key, In, vs)])) <==> vs != []
    ensures IsSelector(LabelSelector(m, [Requirement(key, NotIn, vs)])) <==> vs != []
    ensures IsSelector(LabelSelector(m, [Requirement(key, Exists, vs)])) <==> vs == []
    ensures IsSelector(LabelSelector(m, [Requirement(key, DoesNotExist, vs)])) <==> vs == []
    ensures !IsSelector(LabelSelector(m, [Requirement(key, OtherOperator, vs)]))
  {
    forall r ensures r in rs + qs <==> r in rs || r in qs {}
    forall o: Operator ensures IsSelector(LabelSelector(m, [Requirement(key, o, vs)])) <==>
        o != OtherOperator && (vs != [] <==> o == In || o == NotIn)
    {
      assert Requirement(key, o, vs) in [Requirement(key, o, vs)];
    }
  }

  // ---- the nodes of a group ----

  /** `r` is the nodes at the places `at`, in order: just those that the selector selects. */
  ghost predicate IsSelection(nodes: seq<Node>, s: LabelSelector, r: seq<Node>, at: seq<nat>)
  {
    && |at| == |r|
    && (forall k :: 0 <= k < |r| ==> at[k] < |nodes| && r[k] == nodes[at[k]])
    && (forall k, l :: 0 <= k < l < |r| ==> at[k] < at[l])
    && (forall i: nat :: i < |nodes| ==> (i in at <==> Selects(s, nodes[i].labels)))
  }

  lemma {:induction false} SelectedAt(nodes: seq<Node>, s: LabelSelector) returns (at: seq<nat>)
    ensures IsSelection(nodes, s, SelectNodes(nodes, s), at)
  {
    hide IsSelection, Selects;
    if nodes == [] {
      at := [];
      NoSelection(s);
      assert SelectNodes(nodes, s) == [];
    } else {
      var n := |nodes| - 1;
      at := SelectedAt(nodes[..n], s);
      SelectionNext(nodes, s, SelectNodes(nodes[..n], s), at);
      if Selects(s, nodes[n].labels) {
        at := at + [n];
      } else {
        assert SelectNodes(nodes, s) == SelectNodes(nodes[..n], s);
      }
    }
  }

  lemma NoSelection(s: LabelSelector)
    ensures IsSelection([], s, [], [])
  {
  }

  lemma SelectionNext(nodes: seq<Node>, s: LabelSelector, r: seq<Node>, at: seq<nat>)
    requires nodes != [] && IsSelection(nodes[..|nodes| - 1], s, r, at)
    ensures var n := |nodes| - 1;
            if Selects(s, nodes[n].labels) then IsSelection(nodes, s, r + [nodes[n]], at + [n])
            else IsSelection(nodes, s, r, at)
  {
    hide Selects;
    var n := |nodes| - 1;
    var front := nodes[..n];
    forall i: nat | i < n ensures i in at <==> Selects(s, nodes[i].labels) { assert front[i] == nodes[i]; }
    assert n !in at by {
      forall k | 0 <= k < |at| ensures at[k] != n {}
    }
    var longer := at + [n];
    forall i: nat ensures i in longer <==> i in at || i == n {}
  }

  /** Any filter but "Head" and "Tail" keeps all selected nodes, in the order of the list. */
  lemma DesiredExactly(nodes: seq<Node>, spec: GroupSpec) returns (at: seq<nat>)
    requires spec.nodeFilter != "Head" && spec.nodeFilter != "Tail"
    ensures IsSelection(nodes, spec.nodeSelector, DesiredNodes(nodes, spec), at)
  {
    hide IsSelection, SelectNodes;
    at := SelectedAt(nodes, spec.nodeSelector);
  }

  /** The names that are left by a filter. */
  function ByFilter(filter: string, names: seq<string>): seq<string>
  {
    if names == [] then [] else if filter == "Head" then names[..1] else if filter == "Tail" then names[1..] else names
  }

  /** The names of the selected nodes, ascending. */
  ghost predicate SelectedBy(nodes: seq<Node>, s: LabelSelector, names: seq<string>)
  {
    StrictlyAscending(names) && forall x :: x in names <==> exists n <- nodes :: n.name == x && Selects(s, n.labels)
  }

  lemma FilteredNodes(cfg: Config, spec: GroupSpec) returns (names: seq<string>)
    requires DistinctKeys(NodeName(), cfg.nodes) || (spec.nodeFilter != "Head" && spec.nodeFilter != "Tail")
    ensures SelectedBy(cfg.nodes, spec.nodeSelector, names)
    ensures NodesOf(cfg, spec) == ByFilter(spec.nodeFilter, names)
  {
    hide SortNames, SelectNodes, FilterNodes, Selects, Less, DistinctKeys;
    var selected := SelectNodes(cfg.nodes, spec.nodeSelector);
    names := SortNames(NodeNames(selected));
    forall x ensures x in names <==> exists n <- cfg.nodes :: n.name == x && Selects(spec.nodeSelector, n.labels) {
      SelectedNames(cfg.nodes, spec.nodeSelector, x);
    }
    if spec.nodeFilter == "Head" || spec.nodeFilter == "Tail" {
      SelectedNodes(cfg.nodes, spec.nodeSelector);
      HeadAndTail(selected);
      if selected != [] { NamedNodes(selected); }
      var head, tail :=
        SortNames(NodeNames(FilterNodes(selected, FilterHead))),
          SortNames(NodeNames(FilterNodes(selected, FilterTail)));
      assert head + tail == names;
    } else {
      UnfilteredNodes(selected, spec.nodeFilter);
    }
  }

  lemma NamedNodes(nodes: seq<Node>)
    requires nodes != []
    ensures SortNames(NodeNames(nodes)) != []
  {
    hide SortNames;
    assert NodeNames(nodes)[0] in SortNames(NodeNames(nodes));
  }

  lemma UnfilteredNodes(nodes: seq<Node>, filter: string)
    requires filter != "Head" && filter != "Tail"
    ensures FilterNodes(nodes, TypedFilter(filter)) == nodes
  {
  }

  // ---- numbers ----

  function Value(s: string): int
  {
    if s == "" then 0 else 10 * Value(s[..|s| - 1]) + (s[|s| - 1] as int - '0' as int)
  }

  /** The order label of the group at place `n`: two digits or more, which read as the number, without leading zeros. */
  lemma {:induction false} DigitsRead(n: nat)
    ensures Value(Digits(n)) == n && |Digits(n)| > 0 && forall c <- Digits(n) :: '0' <= c <= '9'
    ensures Digits(n)[0] == '0' <==> n == 0
    ensures n < 10 <==> |Digits(n)| == 1
  {
    if n >= 10 {
      DigitsRead(n / 10);
      var d := Digits(n / 10);
      assert Digits(n)[..|d|] == d;
    } else {
      assert Value("") == 0 && Digits(n)[..0] == "";
    }
  }

  lemma TwoDigitsRead(n: nat)
    ensures Value(TwoDigits(n)) == n && |TwoDigits(n)| >= 2 && forall c <- TwoDigits(n) :: '0' <= c <= '9'
    ensures TwoDigits(n)[0] == '0' <==> n < 10
  {
    hide Digits;
    DigitsRead(n);
    if n < 10 {
      var d := Digits(n)[0];
      assert Digits(n) == [d] && TwoDigits(n) == ['0', d];
      assert TwoDigits(n)[..1] == "0" && "0"[..0] == "";
      assert Digits(n)[..0] == "";
      assert Value("0") == 0;
    }
  }

  // ---- custom plans ----

  /** A custom group is the user's own but for its labels, which are those of the operation and two of its own. */
  lemma CustomKeeps(op: Request, g: GroupSpec, order: string, key: string)
    ensures var p := CustomGroup(op, g, order);
            && p.name == g.name && p.nodeSelector == g.nodeSelector && p.nodeFilter == g.nodeFilter
            && p.commands == g.commands && p.selector == LabelSelector(p.labels, g.selector.matchExpressions)
            && LabelsAre(p.labels, op.labels, g.name, order)
  {
    DifferentLabels();
  }

  /** The labels of the operation, and the two that name the group and its order. */
  ghost predicate LabelsAre(labels: Labels, base: Labels, name: string, order: string)
  {
    var nameLabel, orderLabel := "operator.kubeadm.x-k8s.io/taskgroup", "operator.kubeadm.x-k8s.io/order";
    && nameLabel in labels && labels[nameLabel] == name && orderLabel in labels && labels[orderLabel] == order
    && forall k :: k != nameLabel && k != orderLabel ==>
         (k in labels <==> k in base) && (k in base ==> labels[k] == base[k])
  }

  /** A basic group is named after the operation, order and group, and starts with no commands, on every node. */
  lemma BasicGroupIs(op: Request, order: string, name: string)
    ensures var p := BasicGroup(op, order, name);
            && p.name == op.name + "-" + order + "-" + name && LabelsAre(p.labels, op.labels, name, order)
            && p.selector == LabelSelector(p.labels, []) && p.commands == [] && p.nodeFilter == ""
            && p.nodeSelector == LabelSelector(map[], [])
  {
    DifferentLabels();
  }

  /** A renewal comes before an upgrade, and an upgrade before a custom workflow, if more than one is asked for. */
  lemma PlanChosen(op: Request)
    ensures var plan := TaskGroupList(op);
            && (plan.None? <==> !op.renewCertificates && !op.upgrade && op.custom.None?)
            && (op.renewCertificates ==> plan == Some(RenewPlan(op)))
            && (!op.renewCertificates && op.upgrade ==> plan == Some(UpgradePlan(op)))
            && (!op.renewCertificates && !op.upgrade && op.custom.Some? ==>
                  plan == Some(CustomPlan(op, op.custom.value)))
  {
  }

  /** Group `k` is the last one of its name in the workflow. */
  predicate LastOfItsName(workflow: seq<GroupSpec>, k: nat)
    requires k < |workflow|
  {
    forall l :: k < l < |workflow| ==> workflow[l].name != workflow[k].name
  }

  lemma {:induction false} LastIsPlanned(desired: seq<GroupSpec>, k: nat)
    requires k < |desired| && LastOfItsName(desired, k)
    ensures LastPlanned(desired, desired[k].name) == Some(desired[k])
  {
    var n := |desired| - 1;
    if k < n {
      assert LastOfItsName(desired[..n], k);
      LastIsPlanned(desired[..n], k);
    }
  }

  lemma PlannedAt(cfg: Config, k: nat) returns (i: nat)
    requires k < |cfg.desired| && LastOfItsName(cfg.desired, k)
    ensures i < |Planned(cfg)| && Planned(cfg)[i] == cfg.desired[k]
  {
    var names := SortNames(SpecNames(cfg.desired));
    LastIsPlanned(cfg.desired, k);
    assert SpecNames(cfg.desired)[k] in names;
    i :| 0 <= i < |names| && names[i] == cfg.desired[k].name;
  }

  lemma SlotsOfOwn(cfg: Config, i: nat, x: string)
    requires i < |Planned(cfg)| && Listable(Planned(cfg)[i]) && FindsOwn(Planned(cfg)[i])
    ensures (exists s <- AllSlots(cfg) :: s == Slot(Planned(cfg)[i], x)) <==> x in NodesOf(cfg, Planned(cfg)[i])
  {
    hide Planned, NodesOf, Listable, Finds, Slots, Borrowed;
    var p := Planned(cfg)[i];
    if x in NodesOf(cfg, p) {
      var a := SlotOf(cfg, i, x);
      assert AllSlots(cfg)[a] in AllSlots(cfg);
    }
    if s :| s in AllSlots(cfg) && s == Slot(p, x) {
      var a :| 0 <= a < |AllSlots(cfg)| && AllSlots(cfg)[a] == s;
      var j, n := SlotAnyGroup(cfg, a);
      AscendingDistinct(SpecNames(Planned(cfg)), i, j);
    }
  }

  /**
   * The group at place `k` of a workflow, whose selector is plain labels: it makes a task, with its own commands, on
   * exactly the nodes that its node selector selects and its filter leaves.
   */
  lemma CustomCoverage(op: Request, workflow: seq<GroupSpec>, nodes: seq<Node>, k: nat, x: string)
    returns (names: seq<string>)
    requires k < |workflow| && LastOfItsName(workflow, k)
    requires var g := workflow[k];
             && IsSelector(g.nodeSelector)
             && Agree(g.selector.matchExpressions, CustomGroup(op, g, TwoDigits(k + 1)).labels)
             && (DistinctKeys(NodeName(), nodes) || (g.nodeFilter != "Head" && g.nodeFilter != "Tail"))
    ensures SelectedBy(nodes, workflow[k].nodeSelector, names)
    ensures var slots, g := AllSlots(Config(CustomPlan(op, workflow), nodes)), workflow[k];
            (exists s <- slots :: s.spec.name == g.name && s.node == x && s.spec.commands == g.commands)
            <==> x in ByFilter(g.nodeFilter, names)
  {
    hide Planned, NodesOf, AllSlots, GroupLabels, TwoDigits, SelectedBy, ByFilter, Agree, IsSelector, DistinctKeys;
    var cfg, g := Config(CustomPlan(op, workflow), nodes), workflow[k];
    var p := CustomGroup(op, g, TwoDigits(k + 1));
    assert cfg.desired[k] == p && LastOfItsName(cfg.desired, k);
    var i := PlannedAt(cfg, k);
    FindsExactly(p);
    names := FilteredNodes(cfg, p);
    CustomLists(op, g, TwoDigits(k + 1));
    SlotsOfOwn(cfg, i, x);
    if s :| s in AllSlots(cfg) && s.spec.name == g.name && s.node == x { SlotByName(cfg, i, s); }
  }

  lemma CustomLists(op: Request, g: GroupSpec, order: string)
    requires var p := CustomGroup(op, g, order); IsSelector(g.nodeSelector) && FindsOwn(p)
    ensures Listable(CustomGroup(op, g, order))
  {
    hide GroupLabels, IsSelector, SelectorMap;
  }

  lemma SlotByName(cfg: Config, i: nat, s: Slot)
    requires i < |Planned(cfg)| && s in AllSlots(cfg) && s.spec.name == Planned(cfg)[i].name
    ensures s.spec == Planned(cfg)[i]
  {
    hide Planned, Slots, Made;
    var a :| 0 <= a < |AllSlots(cfg)| && AllSlots(cfg)[a] == s;
    var j, n := SlotAnyGroup(cfg, a);
    AscendingDistinct(SpecNames(Planned(cfg)), i, j);
  }

  /**
   * What a completed workflow has done, in every run: such a group has a task on exactly those nodes, completed, with
   * the commands that the user wrote.
   */
  lemma CustomRunDoes(
      op: Request, workflow: seq<GroupSpec>, nodes: seq<Node>, k: nat, states: seq<Cluster>, events: seq<Event>, i: nat,
      x: string)
    returns (names: seq<string>)
    requires k < |workflow| && LastOfItsName(workflow, k)
    requires var g := workflow[k];
             && IsSelector(g.nodeSelector)
             && Agree(g.selector.matchExpressions, CustomGroup(op, g, TwoDigits(k + 1)).labels)
             && (DistinctKeys(NodeName(), nodes) || (g.nodeFilter != "Head" && g.nodeFilter != "Tail"))
    requires ProperRun(Config(CustomPlan(op, workflow), nodes), states, events)
    requires i < |states| == |events| + 1 && states[i].operation.completed
    ensures SelectedBy(nodes, workflow[k].nodeSelector, names)
    ensures (exists t <- states[i].tasks ::
               t.group == workflow[k].name && t.node == x && t.completed && t.commands == workflow[k].commands)
            <==> x in ByFilter(workflow[k].nodeFilter, names)
  {
    hide ProperRun, DistinctKeys, AllSlots, Planned, CustomPlan, IsSelector, Agree, SelectedBy, ByFilter, LastOfItsName,
         CustomGroup, TwoDigits;
    var cfg := Config(CustomPlan(op, workflow), nodes);
    names := CustomCoverage(op, workflow, nodes, k, x);
    RunCompletionIsFinal(cfg, states, events, i, i);
    var slots, tasks := AllSlots(cfg), states[i].tasks;
    if s :| s in slots && s.spec.name == workflow[k].name && s.node == x && s.spec.commands == workflow[k].commands {
      var a :| 0 <= a < |slots| && slots[a] == s;
      assert Fits(tasks[a], slots[a]);
      assert tasks[a] in tasks;
    }
    if t :| t in tasks && t.group == workflow[k].name && t.node == x && t.commands == workflow[k].commands {
      var a :| 0 <= a < |tasks| && tasks[a] == t;
      assert Fits(tasks[a], slots[a]);
      assert slots[a] in slots;
    }
  }

  // ---- renewals ----

  /** A renewal visits the control plane nodes, each once, by name, and renews the certificates there. */
  lemma RenewCoverage(op: Request, nodes: seq<Node>)
    ensures var slots := AllSlots(Config(RenewPlan(op), nodes));
            && StrictlyAscending(SlotNodes(slots))
            && (forall x :: x in SlotNodes(slots) <==> exists n <- nodes :: n.name == x && IsControlPlane(n))
            && forall s <- slots :: s.spec.commands == [KubeadmRenewCertificates]
  {
    hide NodesOf, GroupLabels, Listable, Finds, SortNames, SelectNodes;
    var cfg := Config(RenewPlan(op), nodes);
    var p := cfg.desired[0];
    RenewPlanned(op, nodes);
    var names := FilteredNodes(cfg, p);
    assert forall n: Node :: Selects(CONTROL_PLANE, n.labels) <==> IsControlPlane(n);
    RenewSlots(op, nodes);
    assert SlotNodes(AllSlots(cfg)) == names;
  }

  /** In every run, a completed renewal has one task on each control plane node and none elsewhere, all completed. */
  lemma RenewRunDoes(op: Request, nodes: seq<Node>, states: seq<Cluster>, events: seq<Event>, i: nat)
    requires IsRun(Config(RenewPlan(op), nodes), states, events)
    requires i < |states| == |events| + 1 && states[i].operation.completed
    ensures StrictlyAscending(TaskNodes(states[i].tasks))
    ensures forall x :: x in TaskNodes(states[i].tasks) <==> exists n <- nodes :: n.name == x && IsControlPlane(n)
    ensures forall t <- states[i].tasks :: t.completed && t.commands == [KubeadmRenewCertificates]
  {
    hide IsRun, ProperRun, RenewPlan, AllSlots, Planned, IsControlPlane;
    var cfg := Config(RenewPlan(op), nodes);
    RenewIsPlanned(op);
    BuiltInRunsAreProper(op.(renewCertificates := true), nodes, states, events);
    RunCompletionIsFinal(cfg, states, events, i, i);
    RenewCoverage(op, nodes);
    var slots, tasks := AllSlots(cfg), states[i].tasks;
    forall j | 0 <= j < |tasks| ensures tasks[j].node == slots[j].node { assert Fits(tasks[j], slots[j]); }
    assert TaskNodes(tasks) == SlotNodes(slots);
    forall t | t in tasks ensures t.completed && t.commands == [KubeadmRenewCertificates] {
      var j :| 0 <= j < |tasks| && tasks[j] == t;
      assert Fits(tasks[j], slots[j]) && slots[j] in slots;
    }
  }

  lemma RenewIsPlanned(op: Request)
    ensures TaskGroupList(op.(renewCertificates := true)) == Some(RenewPlan(op))
  {
  }

  lemma RenewPlanned(op: Request, nodes: seq<Node>)
    ensures Planned(Config(RenewPlan(op), nodes)) == RenewPlan(op)
  {
    hide Planned, GroupLabels;
    PlanOrderSurvives(Config(RenewPlan(op), nodes));
  }

  lemma RenewSlots(op: Request, nodes: seq<Node>)
    ensures var cfg := Config(RenewPlan(op), nodes);
            AllSlots(cfg) == SlotsOn(RenewPlan(op)[0], NodesOf(cfg, RenewPlan(op)[0]))
  {
    hide Planned, NodesOf, GroupLabels, Listable, Finds, LabelledApart, AllAgree, Borrowed;
    var cfg := Config(RenewPlan(op), nodes);
    RenewPlanned(op, nodes);
    RenewLabelledApart(op);
    LabelsSeparate(cfg);
    PlainAgree(cfg);
    assert Planned(cfg)[0] in Planned(cfg);
    assert Slots(cfg, 0) == [];
    assert Slots(cfg, 1) == Slots(cfg, 0) + SlotsOf(cfg, 0);
  }

  // ---- upgrades ----

  /** What is to be done on a node: binaries, apply or node, kubelet, and around it drain and uncordon for a worker. */
  function UpgradeSteps(worker: bool, apply: bool): seq<Command>
  {
    (if worker then [KubectlDrain] else [])
    + [UpgradeKubeadm, if apply then KubeadmUpgradeApply else KubeadmUpgradeNode, UpgradeKubeletAndKubeactl]
    + (if worker then [KubectlUncordon] else [])
  }

  /** Every task of an upgrade: the steps for its node, with `kubeadm upgrade apply` on the first control plane node. */
  lemma UpgradeDoes(op: Request, nodes: seq<Node>, a: nat) returns (n: Node)
    requires DistinctKeys(NodeName(), nodes) && a < |AllSlots(Config(UpgradePlan(op), nodes))|
    ensures var slot := AllSlots(Config(UpgradePlan(op), nodes))[a];
            && n in nodes && n.name == slot.node && (IsControlPlane(n) || IsWorker(n))
            && slot.spec.commands == UpgradeSteps(IsWorker(n), a == 0 && IsControlPlane(n))
  {
    hide UpgradePlan, Planned, NodesOf, DistinctKeys, Less, UpgradeNodes, IsControlPlane, IsWorker, UpgradeSteps;
    UpgradeSlots(op, nodes);
    UpgradeCoverage(op, nodes);
    UpgradeLists(op);
    var cfg := Config(UpgradePlan(op), nodes);
    var ns0, ns1, ns2 := UpgradeNodes(op, nodes, 0), UpgradeNodes(op, nodes, 1), UpgradeNodes(op, nodes, 2);
    var slot := AllSlots(cfg)[a];
    if a < |ns0| + |ns1| {
      assert slot.node == (ns0 + ns1)[a];
      assert slot.node in ns0 + ns1;
      n :| n in nodes && n.name == slot.node && IsControlPlane(n);
    } else {
      assert slot.node == ns2[a - |ns0| - |ns1|];
      assert slot.node in ns2;
      n :| n in nodes && n.name == slot.node && IsWorker(n);
    }
    NotBoth(n);
  }

  lemma NotBoth(n: Node)
    ensures !(IsControlPlane(n) && IsWorker(n))
  {
  }

  lemma UpgradeLists(op: Request)
    ensures var plan := UpgradePlan(op);
            && plan[0].commands == UpgradeSteps(false, true) && plan[1].commands == UpgradeSteps(false, false)
            && plan[2].commands == UpgradeSteps(true, false)
  {
    hide GroupLabels;
  }

  /**
   * What a completed upgrade has done, in every run: each control plane node and each worker has one task, completed,
   * with the steps for that node, all of which have been left behind.
   */
  lemma UpgradeRunDoes(op: Request, nodes: seq<Node>, states: seq<Cluster>, events: seq<Event>, i: nat, n: Node)
    returns (j: nat)
    requires DistinctKeys(NodeName(), nodes) && n in nodes && (IsControlPlane(n) || IsWorker(n))
    requires IsRun(Config(UpgradePlan(op), nodes), states, events) && i <= |events| && states[i].operation.completed
    ensures j < |states[i].tasks|
    ensures var t := states[i].tasks[j];
            && t.node == n.name && t.completed && t.commands == UpgradeSteps(IsWorker(n), j == 0 && IsControlPlane(n))
            && Of(states[i].resolved, t.group, t.node) == Commands(t.group, t.node, |t.commands|)
    ensures forall k :: 0 <= k < |states[i].tasks| && states[i].tasks[k].node == n.name ==> k == j
  {
    hide UpgradePlan, IsRun, ProperRun, DistinctKeys, IsControlPlane, IsWorker, UpgradeSteps, AllSlots, Commands, Of,
         Planned;
    var cfg := Config(UpgradePlan(op), nodes);
    var slots := AllSlots(cfg);
    RunLength(cfg, states, events);
    UpgradeRunsAreProper(op, nodes, states, events);
    RunCompletionIsFinal(cfg, states, events, i, i);
    UpgradeVisitsOnce(op, nodes, n);
    assert n.name in multiset(SlotNodes(slots));
    j :| 0 <= j < |slots| && SlotNodes(slots)[j] == n.name;
    assert Fits(states[i].tasks[j], slots[j]);
    var m := UpgradeDoes(op, nodes, j);
    OneNodePerName(nodes, n);
    RunCursorCounts(cfg, states, events, i, j);
    forall k | 0 <= k < |states[i].tasks| && states[i].tasks[k].node == n.name ensures k == j {
      assert Fits(states[i].tasks[k], slots[k]);
      OncePlace(SlotNodes(slots), n.name, j, k);
    }
  }

  lemma OncePlace(s: seq<string>, x: string, j: nat, k: nat)
    requires multiset(s)[x] == 1 && j < |s| && k < |s| && s[j] == x && s[k] == x
    ensures j == k
  {
    if j < k { TwicePlace(s, x, j, k); }
    if k < j { TwicePlace(s, x, k, j); }
  }

  lemma TwicePlace(s: seq<string>, x: string, j: nat, k: nat)
    requires j < k < |s| && s[j] == x && s[k] == x
    ensures multiset(s)[x] > 1
  {
    assert s == s[..k] + s[k..];
    assert s[..k][j] == x && s[k..][0] == x;
    assert x in s[..k] && x in s[k..];
  }
}
