/** The groups that an operation plans. */
module Plans {
  import opened Names
  import opened Api

  const TASK_GROUP_NAME_LABEL := "operator.kubeadm.x-k8s.io/taskgroup"
  const TASK_GROUP_ORDER_LABEL := "operator.kubeadm.x-k8s.io/order"
  const MASTER_LABEL := "node-role.kubernetes.io/master"

  /** An Operation as the planners see it: at most one of the three descriptors is meant to be set. */
  datatype Request = Request(
    name: string, labels: Labels, renewCertificates: bool, upgrade: bool, custom: Option<seq<GroupSpec>>)

  // ---- the plans ----

  function GroupLabels(op: Request, order: string, name: string): Labels
  {
    op.labels[TASK_GROUP_NAME_LABEL := name][TASK_GROUP_ORDER_LABEL := order]
  }

  function BasicGroup(op: Request, order: string, name: string): GroupSpec
  {
    var labels := GroupLabels(op, order, name);
    GroupSpec(op.name + "-" + order + "-" + name, labels, LabelSelector(labels, []), LabelSelector(map[], []), "", [])
  }

  const CONTROL_PLANE := LabelSelector(map[MASTER_LABEL := ""], [])
  const WORKERS := LabelSelector(map[], [Requirement(MASTER_LABEL, DoesNotExist, [])])

  function RenewPlan(op: Request): seq<GroupSpec>
  {
    [BasicGroup(op, "01", "renew-cp").(nodeSelector := CONTROL_PLANE, commands := [KubeadmRenewCertificates])]
  }

  function UpgradePlan(op: Request): seq<GroupSpec>
  {
    [ BasicGroup(op, "01", "upgrade-cp-1").(nodeSelector := CONTROL_PLANE, nodeFilter := "Head",
        commands := [UpgradeKubeadm, KubeadmUpgradeApply, UpgradeKubeletAndKubeactl]),
      BasicGroup(op, "02", "upgrade-cp-n").(nodeSelector := CONTROL_PLANE, nodeFilter := "Tail",
        commands := [UpgradeKubeadm, KubeadmUpgradeNode, UpgradeKubeletAndKubeactl]),
      BasicGroup(op, "02", "upgrade-w").(nodeSelector := WORKERS,
        commands := [KubectlDrain, UpgradeKubeadm, KubeadmUpgradeNode, UpgradeKubeletAndKubeactl, KubectlUncordon]) ]
  }

  function Digits(n: nat): string
  {
    if n < 10 then [('0' as int + n) as char] else Digits(n / 10) + [('0' as int + n % 10) as char]
  }

  /** Go's `%02d`. */
  function TwoDigits(n: nat): string { if n < 10 then "0" + Digits(n) else Digits(n) }

  function CustomGroup(op: Request, g: GroupSpec, order: string): GroupSpec
  {
    var labels := GroupLabels(op, order, g.name);
    g.(labels := labels, selector := g.selector.(matchLabels := labels))
  }

  function CustomPlan(op: Request, workflow: seq<GroupSpec>): (r: seq<GroupSpec>)
    ensures |r| == |workflow|
    ensures forall i :: 0 <= i < |r| ==> r[i] == CustomGroup(op, workflow[i], TwoDigits(i + 1))
  {
    seq(|workflow|, i requires 0 <= i < |workflow| => CustomGroup(op, workflow[i], TwoDigits(i + 1)))
  }

  /** None is the error for an operation without a descriptor. */
  function TaskGroupList(op: Request): Option<seq<GroupSpec>>
  {
    if op.renewCertificates then Some(RenewPlan(op))
    else if op.upgrade then Some(UpgradePlan(op))
    else if op.custom.Some? then Some(CustomPlan(op, op.custom.value))
    else None
  }

  // ---- the planners, which fill in a group step by step ----

  class RuntimeTaskGroupDraft {
    var name: string
    var labels: Labels
    var selector: LabelSelector
    var nodeSelector: LabelSelector
    var nodeFilter: string
    var commands: seq<Command>

    function Value(): GroupSpec
      reads this
    {
      GroupSpec(name, labels, selector, nodeSelector, nodeFilter, commands)
    }

    constructor (name: string, labels: Labels)
      ensures Value() == GroupSpec(name, labels, LabelSelector(labels, []), LabelSelector(map[], []), "", [])
    {
      this.name, this.labels, selector := name, labels, LabelSelector(labels, []);
      nodeSelector, nodeFilter, commands := LabelSelector(map[], []), "", [];
    }
  }

  method CopyLabels(from: Labels) returns (labels: Labels)
    ensures labels == from
  {
    labels := map[];
    var todo := from.Keys;
    while todo != {}
      invariant todo <= from.Keys
      invariant labels == map k | k in from && k !in todo :: from[k]
      decreases todo
    {
      var k :| k in todo;
      labels := labels[k := from[k]];
      todo := todo - {k};
    }
  }

  method CreateBasicTaskGroup(op: Request, order: string, name: string) returns (t: RuntimeTaskGroupDraft)
    ensures fresh(t) && t.Value() == BasicGroup(op, order, name)
  {
    var labels := CopyLabels(op.labels);
    labels := labels[TASK_GROUP_NAME_LABEL := name];
    labels := labels[TASK_GROUP_ORDER_LABEL := order];
    t := new RuntimeTaskGroupDraft(op.name + "-" + order + "-" + name, labels);
  }

  method SetCPSelector(t: RuntimeTaskGroupDraft)
    modifies t`nodeSelector
    ensures t.nodeSelector == CONTROL_PLANE
  {
    t.nodeSelector := LabelSelector(map[MASTER_LABEL := ""], []);
  }

  method SetCP1Selector(t: RuntimeTaskGroupDraft)
    modifies t`nodeSelector, t`nodeFilter
    ensures t.nodeSelector == CONTROL_PLANE && t.nodeFilter == "Head"
  {
    t.nodeSelector := LabelSelector(map[MASTER_LABEL := ""], []);
    t.nodeFilter := "Head";
  }

  method SetCPNSelector(t: RuntimeTaskGroupDraft)
    modifies t`nodeSelector, t`nodeFilter
    ensures t.nodeSelector == CONTROL_PLANE && t.nodeFilter == "Tail"
  {
    t.nodeSelector := LabelSelector(map[MASTER_LABEL := ""], []);
    t.nodeFilter := "Tail";
  }

  method SetWSelector(t: RuntimeTaskGroupDraft)
    modifies t`nodeSelector
    ensures t.nodeSelector == WORKERS
  {
    t.nodeSelector := LabelSelector(map[], [Requirement(MASTER_LABEL, DoesNotExist, [])]);
  }

  method PlanUpgrade(op: Request) returns (items: seq<GroupSpec>)
    ensures items == UpgradePlan(op)
  {
    items := [];
    hide GroupLabels;
    var t1 := CreateBasicTaskGroup(op, "01", "upgrade-cp-1");
    SetCP1Selector(t1);
    t1.nodeFilter := "Head";
    t1.commands := t1.commands + [UpgradeKubeadm, KubeadmUpgradeApply, UpgradeKubeletAndKubeactl];
    assert t1.commands == [UpgradeKubeadm, KubeadmUpgradeApply, UpgradeKubeletAndKubeactl];
    items := items + [t1.Value()];
    var t2 := CreateBasicTaskGroup(op, "02", "upgrade-cp-n");
    SetCPNSelector(t2);
    t2.commands := t2.commands + [UpgradeKubeadm, KubeadmUpgradeNode, UpgradeKubeletAndKubeactl];
    assert t2.commands == [UpgradeKubeadm, KubeadmUpgradeNode, UpgradeKubeletAndKubeactl];
    items := items + [t2.Value()];
    var t3 := CreateBasicTaskGroup(op, "02", "upgrade-w");
    SetWSelector(t3);
    t3.commands := t3.commands
      + [KubectlDrain, UpgradeKubeadm, KubeadmUpgradeNode, UpgradeKubeletAndKubeactl, KubectlUncordon];
    assert t3.commands ==
        [KubectlDrain, UpgradeKubeadm, KubeadmUpgradeNode, UpgradeKubeletAndKubeactl, KubectlUncordon];
    items := items + [t3.Value()];
    assert items == [t1.Value(), t2.Value(), t3.Value()];
  }

  method PlanRenewCertificates(op: Request) returns (items: seq<GroupSpec>)
    ensures items == RenewPlan(op)
  {
    items := [];
    var t1 := CreateBasicTaskGroup(op, "01", "renew-cp");
    SetCPSelector(t1);
    t1.commands := t1.commands + [KubeadmRenewCertificates];
    assert t1.commands == [KubeadmRenewCertificates];
    items := items + [t1.Value()];
    assert items == [t1.Value()];
  }

  method FixupCustomTaskGroup(op: Request, taskgroup: GroupSpec, order: string) returns (r: GroupSpec)
    ensures r == CustomGroup(op, taskgroup, order)
  {
    var labels := CopyLabels(op.labels);
    labels := labels[TASK_GROUP_NAME_LABEL := taskgroup.name];
    labels := labels[TASK_GROUP_ORDER_LABEL := order];
    r := taskgroup.(labels := labels);
    r := r.(selector := r.selector.(matchLabels := labels));
  }

  method PlanCustom(op: Request, workflow: seq<GroupSpec>) returns (items: seq<GroupSpec>)
    ensures items == CustomPlan(op, workflow)
  {
    items := [];
    for i := 0 to |workflow|
      invariant |items| == i
      invariant forall j :: 0 <= j < i ==> items[j] == CustomGroup(op, workflow[j], TwoDigits(j + 1))
    {
      var g := FixupCustomTaskGroup(op, workflow[i], TwoDigits(i + 1));
      items := items + [g];
    }
  }
}
