/** The stored objects: Operation, RuntimeTaskGroup, RuntimeTask and Node, as values. */
module Api {
  import opened Names

  type Labels = map<string, string>

  // ---- enumerations parsed from strings ----

  datatype Mode = Auto | Controlled | DryRun | UnknownMode

  function TypedMode(s: string): Mode
  {
    if s == "Auto" then Auto
    else if s == "Controlled" then Controlled
    else if s == "DryRun" then DryRun
    else UnknownMode
  }

  datatype Strategy = RetryFailedCommand | SkipFailedCommand | UnknownStrategy

  function TypedRecovery(s: string): Strategy
  {
    if s == "SkipFailedCommand" then SkipFailedCommand
    else if s == "RetryFailedCommand" then RetryFailedCommand
    else UnknownStrategy
  }

  datatype NodeFilter = FilterAll | FilterHead | FilterTail | UnknownFilter

  function TypedFilter(s: string): NodeFilter
  {
    if s == "All" then FilterAll
    else if s == "Head" then FilterHead
    else if s == "Tail" then FilterTail
    else UnknownFilter
  }

  datatype Phase = PhasePending | PhaseRunning | PhasePaused | PhaseSucceeded | PhaseFailed

  datatype Command =
    | Preflight | KubeadmRenewCertificates
    | UpgradeKubeadm | KubeadmUpgradeApply | KubeadmUpgradeNode | UpgradeKubeletAndKubeactl
    | KubectlDrain | KubectlUncordon
    | Pass | Fail | Wait(seconds: int)

  // ---- nodes and label selectors ----

  datatype Node = Node(name: string, labels: Labels)

  datatype Operator = In | NotIn | Exists | DoesNotExist | OtherOperator

  datatype Requirement = Requirement(key: string, operator: Operator, values: seq<string>)

  datatype LabelSelector = LabelSelector(matchLabels: Labels, matchExpressions: seq<Requirement>)

  predicate MatchesLabels(wanted: Labels, labels: Labels)
  {
    forall k <- wanted :: k in labels && labels[k] == wanted[k]
  }

  predicate Meets(r: Requirement, labels: Labels)
  {
    match r.operator
    case In => r.key in labels && labels[r.key] in r.values
    case NotIn => r.key in labels ==> labels[r.key] !in r.values
    case Exists => r.key in labels
    case DoesNotExist => r.key !in labels
    case OtherOperator => false
  }

  /** `LabelSelectorAsSelector` succeeds: every expression has a known operator and values exactly if it needs some. */
  predicate IsSelector(s: LabelSelector)
  {
    forall r <- s.matchExpressions ::
      r.operator != OtherOperator && (r.values != [] <==> r.operator == In || r.operator == NotIn)
  }

  predicate Selects(s: LabelSelector, labels: Labels)
  {
    MatchesLabels(s.matchLabels, labels) && forall r <- s.matchExpressions :: Meets(r, labels)
  }

  /** An expression that says the same as one label. */
  predicate OneLabel(r: Requirement) { r.operator == In && |r.values| == 1 }

  function WithExpressions(labels: Labels, rs: seq<Requirement>): Option<Labels>
  {
    if rs == [] then Some(labels)
    else
      var m, r := WithExpressions(labels, rs[..|rs| - 1]), rs[|rs| - 1];
      if m.Some? && OneLabel(r) then Some(m.value[r.key := r.values[0]]) else None
  }

  /**
   * `LabelSelectorAsMap`: the labels, overridden by the expressions in order; None if an expression is not just one
   * label.
   */
  function SelectorMap(s: LabelSelector): Option<Labels> { WithExpressions(s.matchLabels, s.matchExpressions) }

  function NodeName(): Node -> string { (n: Node) => n.name }

  // ---- RuntimeTask ----

  datatype TaskError = ExecutionError(command: nat) | IndexOutOfRange

  datatype TaskState = TaskState(
    name: string, group: string, labels: Labels,
    node: string, recovery: string, commands: seq<Command>,
    started: bool, cursor: nat, paused: bool, completed: bool, error: Option<TaskError>, phase: Phase)

  // ---- RuntimeTaskGroup ----

  datatype ReconcileError = ReconciliationError | ReplicaError

  datatype GroupSpec = GroupSpec(
    name: string, labels: Labels, selector: LabelSelector,
    nodeSelector: LabelSelector, nodeFilter: string, commands: seq<Command>)

  datatype Counters = Counters(all: nat, running: nat, succeeded: nat, failed: nat, invalid: nat)

  datatype GroupState = GroupState(
    spec: GroupSpec,
    started: bool, paused: bool, completed: bool, counters: Counters, error: Option<ReconcileError>, phase: Phase)

  // ---- Operation ----

  datatype OperationState = OperationState(
    specPaused: bool, mode: string,
    started: bool, paused: bool, completed: bool, counters: Counters, error: Option<ReconcileError>, phase: Phase)

  /** The phase shown for a status: error before completion, completion before pause, pause before start. */
  function PhaseOf(failed: bool, completed: bool, paused: bool, started: bool): Phase
  {
    if failed then PhaseFailed
    else if completed then PhaseSucceeded
    else if paused then PhasePaused
    else if started then PhaseRunning
    else PhasePending
  }
}
