/** Whether the selectors of a plan find what they are meant to find. */
module Selectors {
  import opened Names
  import opened Api
  import opened Matching
  import opened Machine
  import opened Schedule
  import opened Safety
  import opened Plans

  // ---- expressions in the selector of a group ----

  /** The expression that decides about a label: the last one on its key. */
  function LastOn(rs: seq<Requirement>, key: string): Option<Requirement>
  {
    if rs == [] then None
    else if rs[|rs| - 1].key == key then Some(rs[|rs| - 1])
    else LastOn(rs[..|rs| - 1], key)
  }

  /** Each expression is a one-value `In`, and the last one on each key agrees with the labels. */
  predicate Agree(rs: seq<Requirement>, labels: Labels)
  {
    && (forall r <- rs :: OneLabel(r))
    && (forall r <- rs :: var z := LastOn(rs, r.key);
          z.Some? && |z.value.values| == 1 && r.key in labels && labels[r.key] == z.value.values[0])
  }

  lemma {:induction false} LastOnFound(rs: seq<Requirement>, key: string)
    ensures LastOn(rs, key).Some? <==> exists r <- rs :: r.key == key
    ensures LastOn(rs, key).Some? ==> LastOn(rs, key).value in rs && LastOn(rs, key).value.key == key
  {
    if rs != [] {
      var t, z := rs[..|rs| - 1], rs[|rs| - 1];
      LastOnFound(t, key);
      assert rs == t + [z];
    }
  }

  /** The labels that a selector with expressions stands for, key by key. */
  lemma {:induction false} WithExpressionsAt(labels: Labels, rs: seq<Requirement>, key: string)
    ensures var w := WithExpressions(labels, rs);
            && (w.Some? <==> forall r <- rs :: OneLabel(r))
            && (w.Some? ==>
                  var z := LastOn(rs, key);
                  && (key in w.value <==> z.Some? || key in labels)
                  && (z.Some? ==> |z.value.values| == 1 && w.value[key] == z.value.values[0])
                  && (z.None? && key in labels ==> w.value[key] == labels[key]))
  {
    if rs != [] {
      var t, z := rs[..|rs| - 1], rs[|rs| - 1];
      WithExpressionsAt(labels, t, key);
      assert rs == t + [z];
    }
  }

  /**
   * A group whose selector starts from its own labels finds itself exactly when its expressions agree; then they add
   * nothing.
   */
  lemma FindsExactly(spec: GroupSpec)
    requires spec.selector.matchLabels == spec.labels
    ensures Finds(spec, spec.labels) <==> Agree(spec.selector.matchExpressions, spec.labels)
    ensures Finds(spec, spec.labels) ==> SelectorMap(spec.selector) == Some(spec.labels)
  {
    hide WithExpressions, OneLabel, LastOn;
    var rs, labels := spec.selector.matchExpressions, spec.labels;
    var w := WithExpressions(labels, rs);
    WithExpressionsAt(labels, rs, "");
    if Finds(spec, labels) {
      forall r <- rs ensures var z := LastOn(rs, r.key);
        z.Some? && |z.value.values| == 1 && r.key in labels && labels[r.key] == z.value.values[0]
      {
        LastOnFound(rs, r.key);
        WithExpressionsAt(labels, rs, r.key);
      }
      forall key ensures key in w.value <==> key in labels { WithExpressionsAt(labels, rs, key); LastOnFound(rs, key); }
      assert w.value == labels;
    }
    if Agree(rs, labels) {
      forall key <- w.value ensures key in labels && labels[key] == w.value[key] {
        LastOnFound(rs, key);
        WithExpressionsAt(labels, rs, key);
      }
    }
  }

  // ---- plans ----

  /** Groups are labelled with distinct names, and their selectors start from their own labels. */
  ghost predicate LabelledApart(plan: seq<GroupSpec>)
  {
    && (forall i :: 0 <= i < |plan| ==>
        plan[i].selector.matchLabels == plan[i].labels && TASK_GROUP_NAME_LABEL in plan[i].labels)
    && (forall i, j :: 0 <= i < |plan| && 0 <= j < |plan| && plan[i].name != plan[j].name ==>
          plan[i].labels[TASK_GROUP_NAME_LABEL] != plan[j].labels[TASK_GROUP_NAME_LABEL])
  }

  /** The selector of every planned group agrees with the labels of its tasks. */
  ghost predicate AllAgree(cfg: Config)
  {
    forall spec <- Planned(cfg) :: Agree(spec.selector.matchExpressions, spec.labels)
  }

  ghost predicate AllFind(cfg: Config)
  {
    forall spec <- Planned(cfg) :: Finds(spec, spec.labels)
  }

  /** The selector of a planned group finds the tasks of no other planned group. */
  ghost predicate SelectorsSeparate(cfg: Config)
  {
    var p := Planned(cfg);
    forall i, j :: 0 <= i < |p| && 0 <= j < |p| && i != j ==> !Finds(p[i], p[j].labels)
  }

  /** The name label is in every selector, so a selector finds the tasks of one name. */
  lemma LabelsSingle(cfg: Config)
    requires LabelledApart(cfg.desired)
    ensures SelectorsSingle(cfg)
  {
    hide Planned, WithExpressions, OneLabel;
    var p := Planned(cfg);
    forall i, j, l | 0 <= i < |p| && 0 <= j < |p| && 0 <= l < |p|
        && Finds(p[i], p[j].labels) && Finds(p[i], p[l].labels)
      ensures j == l
    {
      PlannedIsDesired(cfg, i);
      PlannedIsDesired(cfg, j);
      PlannedIsDesired(cfg, l);
      WithExpressionsAt(p[i].labels, p[i].selector.matchExpressions, TASK_GROUP_NAME_LABEL);
      if p[j].name == p[l].name && j != l { AscendingDistinct(SpecNames(p), j, l); }
    }
  }

  lemma LabelsSeparate(cfg: Config)
    requires LabelledApart(cfg.desired)
    ensures AllFind(cfg) <==> AllAgree(cfg)
    ensures AllAgree(cfg) ==> SelectorsSeparate(cfg)
  {
    hide Planned, Agree, SelectorMap;
    var p := Planned(cfg);
    forall i | 0 <= i < |p|
      ensures Finds(p[i], p[i].labels) <==> Agree(p[i].selector.matchExpressions, p[i].labels)
      ensures Finds(p[i], p[i].labels) ==> SelectorMap(p[i].selector) == Some(p[i].labels)
    {
      PlannedIsDesired(cfg, i);
      FindsExactly(p[i]);
    }
    forall i, j | 0 <= i < |p| && 0 <= j < |p| && i != j && AllAgree(cfg) ensures !Finds(p[i], p[j].labels) {
      PlannedIsDesired(cfg, i);
      PlannedIsDesired(cfg, j);
      if p[i].name == p[j].name { AscendingDistinct(SpecNames(p), i, j); }
      assert TASK_GROUP_NAME_LABEL in p[i].labels;
    }
  }

  lemma PlannedIsDesired(cfg: Config, i: nat)
    requires i < |Planned(cfg)|
    ensures Planned(cfg)[i] in cfg.desired
  {
    var names := SortNames(SpecNames(cfg.desired));
    LastPlannedFound(cfg.desired, names[i]);
  }

  /**
   * Whatever an operation plans: every group finds its own tasks and no others exactly when each expression that the
   * user put into a selector is a one-value `In` and the last one on each key agrees with the labels of the group.
   */
  lemma PlansSeparate(op: Request, nodes: seq<Node>)
    requires TaskGroupList(op).Some?
    ensures var cfg := Config(TaskGroupList(op).value, nodes);
            SelectorsSeparate(cfg) && AllFind(cfg) <==> AllAgree(cfg)
  {
    hide LabelledApart, SelectorsSeparate, AllFind, AllAgree;
    PlanLabelledApart(op);
    LabelsSeparate(Config(TaskGroupList(op).value, nodes));
  }

  /** Whatever an operation plans, a selector finds the tasks of one planned group at most. */
  lemma PlansSingle(op: Request, nodes: seq<Node>)
    requires TaskGroupList(op).Some?
    ensures SelectorsSingle(Config(TaskGroupList(op).value, nodes))
  {
    hide LabelledApart, SelectorsSingle;
    PlanLabelledApart(op);
    LabelsSingle(Config(TaskGroupList(op).value, nodes));
  }

  lemma PlanLabelledApart(op: Request)
    requires TaskGroupList(op).Some?
    ensures LabelledApart(TaskGroupList(op).value)
  {
    hide LabelledApart;
    var plan := TaskGroupList(op).value;
    if op.renewCertificates {
      RenewLabelledApart(op);
    } else if op.upgrade {
      UpgradeLabelledApart(op);
    } else {
      CustomLabelledApart(op, op.custom.value);
    }
  }

  lemma PlainAgree(cfg: Config)
    requires forall i :: 0 <= i < |cfg.desired| ==>
               cfg.desired[i].selector.matchExpressions == [] && IsSelector(cfg.desired[i].nodeSelector)
    ensures AllAgree(cfg) && forall spec <- Planned(cfg) :: Listable(spec)
  {
    hide Planned, IsSelector;
    var p := Planned(cfg);
    forall i | 0 <= i < |p| ensures Agree(p[i].selector.matchExpressions, p[i].labels) && Listable(p[i]) {
      PlannedIsDesired(cfg, i);
    }
  }

  /** The selectors of the built-in plans always do what they should. */
  lemma BuiltInPlansSelect(op: Request, nodes: seq<Node>)
    requires op.renewCertificates || op.upgrade
    ensures var cfg := Config(TaskGroupList(op).value, nodes);
            SelectorsSeparate(cfg) && SelectorsWork(cfg)
  {
    hide LabelledApart, SelectorsSeparate, Planned, GroupLabels, NodesOf, Finds, AllAgree, Listable, Borrowed;
    PlansSeparate(op, nodes);
    PlainAgree(Config(TaskGroupList(op).value, nodes));
  }

  /** So every run of a built-in plan is one that the general results speak of. */
  lemma BuiltInRunsAreProper(op: Request, nodes: seq<Node>, states: seq<Cluster>, events: seq<Event>)
    requires op.renewCertificates || op.upgrade
    requires IsRun(Config(TaskGroupList(op).value, nodes), states, events)
    ensures ProperRun(Config(TaskGroupList(op).value, nodes), states, events)
  {
    hide Planned, SelectorsSingle, SelectorsWork, IsRun, Finds, TaskGroupList;
    BuiltInPlans(op);
    var cfg := Config(TaskGroupList(op).value, nodes);
    BuiltInPlansSelect(op, nodes);
    PlansSingle(op, nodes);
    EveryRunIsProper(cfg, states, events);
  }

  lemma BuiltInPlans(op: Request)
    requires op.renewCertificates || op.upgrade
    ensures TaskGroupList(op).Some?
  {
  }

  lemma GroupLabelsOf(op: Request, order: string, name: string)
    ensures var labels := GroupLabels(op, order, name);
            TASK_GROUP_NAME_LABEL in labels && labels[TASK_GROUP_NAME_LABEL] == name
  {
    hide TASK_GROUP_NAME_LABEL, TASK_GROUP_ORDER_LABEL;
    DifferentLabels();
  }

  lemma RenewLabelledApart(op: Request)
    ensures LabelledApart(RenewPlan(op))
  {
    hide GroupLabels, TASK_GROUP_NAME_LABEL;
    GroupLabelsOf(op, "01", "renew-cp");
  }

  lemma UpgradeLabelledApart(op: Request)
    ensures LabelledApart(UpgradePlan(op))
  {
    hide GroupLabels, TASK_GROUP_NAME_LABEL;
    GroupLabelsOf(op, "01", "upgrade-cp-1");
    GroupLabelsOf(op, "02", "upgrade-cp-n");
    GroupLabelsOf(op, "02", "upgrade-w");
    UpgradeLabels();
  }

  lemma CustomLabelledApart(op: Request, workflow: seq<GroupSpec>)
    ensures LabelledApart(CustomPlan(op, workflow))
  {
    hide GroupLabels, TASK_GROUP_NAME_LABEL, TwoDigits;
    var plan := CustomPlan(op, workflow);
    forall i | 0 <= i < |plan|
      ensures plan[i].selector.matchLabels == plan[i].labels && TASK_GROUP_NAME_LABEL in plan[i].labels
      ensures plan[i].labels[TASK_GROUP_NAME_LABEL] == plan[i].name
    {
      GroupLabelsOf(op, TwoDigits(i + 1), workflow[i].name);
    }
  }

  lemma DifferentLabels()
    ensures TASK_GROUP_NAME_LABEL != TASK_GROUP_ORDER_LABEL
  {
    assert |TASK_GROUP_NAME_LABEL| != |TASK_GROUP_ORDER_LABEL|;
  }

  lemma UpgradeLabels()
    ensures "upgrade-cp-1" != "upgrade-cp-n" && "upgrade-cp-1" != "upgrade-w" && "upgrade-cp-n" != "upgrade-w"
  {
    assert "upgrade-cp-1"[11] != "upgrade-cp-n"[11] && "upgrade-cp-1"[8] != "upgrade-w"[8]
        && "upgrade-cp-n"[8] != "upgrade-w"[8];
  }
}
