/**
 One reconcile of a replica autoscaler: the cool-down gate, the scalers, the replicator, the working
 bounds, the scale write and panic mode.
 */
module Controller {
  import opened Common
  import opened Bounds
  import C = Conditions
  import T = TargetStatuses
  import R = Replicator
  import P = ReplicaPatches

  const COOL_DOWN := 30 * SECOND
  const DEFAULT_REPLICATOR := "simple"
  const DEFAULT_MIN_REPLICAS := 1

  datatype Requeue = NotRequeue | AfterError | AfterNormal | AfterPanic

  datatype Spec = Spec(
    minReplicas: Option<int>, maxReplicas: int, strategy: Option<C.Strategy>, replicator: Option<string>)

  /** The scale subresource as read at the start of the reconcile. */
  datatype Scale = Scale(specReplicas: int, statusReplicas: int, selectorParses: bool)

  datatype Status = Status(
    lastScaleTime: Option<Time>, currentReplicas: int, desiredReplicas: int,
    targets: T.Targets, conditions: C.ConditionList)

  /** What came of one target: a scaler may have updated target statuses before it answered or failed. */
  datatype ScalerOutcome =
    | BadSettings
    | NoSuchScaler
    | ScalerFailed(updates: seq<T.TargetStatus>)
    | Answered(desired: int, managed: seq<string>, updates: seq<T.TargetStatus>)

  datatype Target = Target(metric: string, outcome: ScalerOutcome)

  datatype ExhaustCheck = CheckFailed | NotExhausted | OnPending

  /** The instants at which one reconcile reads the clock, in the order of the code. */
  datatype Clock = Clock(
    purge: Time, exhaust: Time, gate: Time, sinceScale: Time, notFound: Time,
    seed: Time, replicator: Time, stamp: Time, unpatched: Time, lookup: Time, patched: Time,
    limited: Time, scaled: Time, panicCheck: Time, panicSet: Time, ready: Time)
  {
    ghost predicate Forward() {
      purge <= exhaust <= gate <= sinceScale <= notFound <= seed <= replicator <= stamp <= unpatched
      <= lookup <= patched <= limited <= scaled <= panicCheck <= panicSet <= ready
    }
  }

  /**
   Everything one reconcile reads from outside: specification, cluster, scalers, faults and clock; and
   `others`, what other autoscalers asked the shared replicator since this one's previous reconcile.
   */
  datatype Input = Input(
    spec: Spec, deleting: bool, scale: Option<Scale>, exhaust: ExhaustCheck, dryRun: Option<string>,
    patches: P.Annotation, targets: seq<Target>, updateOk: bool, statusPatchOk: bool, clock: Clock,
    others: seq<R.Call>)

  datatype Config = Config(name: string, namespace: string, window: int, parsers: P.Parsers)

  // ---------------------------------------------------------------- targets

  datatype Stop = TargetFailed | ScalerMissing(metric: string)

  datatype Collected = Collected(
    targets: T.Targets, outputs: map<string, int>, managed: seq<string>, stop: Option<Stop>)

  /** The target loop: it stops at the first failure; outputs are kept per metric name. */
  function Collect(statuses: T.Targets, targets: seq<Target>): Collected {
    if targets == [] then Collected(statuses, map[], [], None)
    else
      var c, target := Collect(statuses, targets[..|targets| - 1]), targets[|targets| - 1];
      if c.stop.Some? then c
      else
        match target.outcome
        case BadSettings => c.(stop := Some(TargetFailed))
        case NoSuchScaler => c.(stop := Some(ScalerMissing(target.metric)))
        case ScalerFailed(updates) => c.(targets := T.SetAll(c.targets, updates), stop := Some(TargetFailed))
        case Answered(desired, managed, updates) =>
          Collected(T.SetAll(c.targets, updates), c.outputs[target.metric := desired], c.managed + managed, None)
  }

  // ---------------------------------------------------------------- the specification of a reconcile

  /** The final decision: what the replicator was asked, and the bounds that clamped its answer. */
  datatype Decision = Decision(call: R.Call, min: int, max: int, replicas: int)

  /** The effects of a reconcile; `write` is a successful write of the scale's replicas. */
  datatype Step = Step(
    status: Status, history: R.History, decision: Option<Decision>, write: Option<int>, requeue: Requeue)

  function SelectedReplicator(spec: Spec): string {
    match spec.replicator
    case None => DEFAULT_REPLICATOR
    case Some(name) => name
  }

  predicate CoolingDown(status: Status, input: Input) {
    status.lastScaleTime.Some? && input.clock.sinceScale - status.lastScaleTime.value < COOL_DOWN
  }

  predicate UnderPanic(status: Status, input: Input) {
    C.StillInPanicMode(status.conditions, input.spec.strategy, input.clock.gate)
  }

  predicate PerformsScaling(dryRun: Option<string>) {
    dryRun == Some("false")
  }

  /** The patch in force, after the purge that opened the reconcile; any failure falls back to none. */
  function WorkingPatch(cfg: Config, input: Input): Option<P.ReplicaPatch> {
    match P.PatchesOf(P.Purged(cfg.parsers, input.patches, input.clock.purge))
    case Err(_) => None
    case Ok(list) =>
      match P.Select(cfg.parsers, list, input.clock.lookup)
      case Err(_) => None
      case Ok(patch) => patch
  }

  function MinReplicas(cfg: Config, input: Input): int {
    match WorkingPatch(cfg, input)
    case Some(patch) => patch.minReplicas
    case None => input.spec.minReplicas.GetOr(DEFAULT_MIN_REPLICAS)
  }

  function MaxReplicas(cfg: Config, input: Input): int {
    match WorkingPatch(cfg, input)
    case Some(patch) => patch.maxReplicas
    case None => input.spec.maxReplicas
  }

  function LimitReason(answer: int, min: int, max: int): C.Reason {
    var capped := if answer > max then max else answer;
    if capped < min then C.ReachMinimalReplicas
    else if answer > max then C.ReachMaxReplicas
    else C.NoReason
  }

  /** The conditions after the bounds were chosen and applied. */
  function BoundConditions(conditions: C.ConditionList, cfg: Config, input: Input, answer: int): C.ConditionList {
    var min, max := MinReplicas(cfg, input), MaxReplicas(cfg, input);
    var unpatched := C.Set(conditions, C.ReplicaPatched, C.False, C.NoPatchApplied, input.clock.unpatched);
    var patched := if WorkingPatch(cfg, input).None? then unpatched
                   else C.Set(unpatched, C.ReplicaPatched, C.True, C.PatchApplied(min, max), input.clock.patched);
    var reason := LimitReason(answer, min, max);
    C.Set(patched, C.ScaleLimited, if reason == C.NoReason then C.False else C.True, reason, input.clock.limited)
  }

  datatype Scaled = Scaled(status: Status, write: Option<int>, ok: bool)

  function ScaledTo(status: Status, input: Input, specReplicas: int, desired: int): Scaled {
    var wanted := status.(desiredReplicas := desired);
    if specReplicas == desired then Scaled(wanted, None, true)
    else if PerformsScaling(input.dryRun) && !input.updateOk then
      Scaled(wanted.(conditions := C.Set(wanted.conditions, C.Ready, C.False, C.FailedToScale, input.clock.scaled)),
             None, false)
    else
      Scaled(wanted.(lastScaleTime := Some(input.clock.scaled)),
             if PerformsScaling(input.dryRun) then Some(desired) else None, true)
  }

  predicate EntersPanic(input: Input, specReplicas: int, desired: int) {
    C.ShouldEnterPanicMode(desired, specReplicas, input.spec.strategy)
  }

  function PanicConditions(conditions: C.ConditionList, input: Input, specReplicas: int,
                           desired: int): C.ConditionList {
    if EntersPanic(input, specReplicas, desired) then
      C.Set(conditions, C.PanicMode, C.True, C.NoReason, input.clock.panicSet)
    else if !C.StillInPanicMode(conditions, input.spec.strategy, input.clock.panicCheck) then
      C.Set(conditions, C.PanicMode, C.False, C.NoReason, input.clock.panicSet)
    else conditions
  }

  function CallOf(cfg: Config, input: Input, specReplicas: int, outputs: map<string, int>): R.Call {
    R.Call(R.UniqueKey(cfg.name, cfg.namespace), specReplicas, outputs,
           input.clock.seed, input.clock.replicator, input.clock.stamp)
  }

  /** From the replicator's answer to the end of the autoscaling flow. */
  ghost function Decided(status: Status, history: R.History, cfg: Config, input: Input, specReplicas: int,
                         outputs: map<string, int>): Step
  {
    var call := CallOf(cfg, input, specReplicas, outputs);
    var answer := R.Answer(history, cfg.window, call);
    var min, max := MinReplicas(cfg, input), MaxReplicas(cfg, input);
    var replicas := Clamp(answer, min, max);
    var bounded := status.(conditions := BoundConditions(status.conditions, cfg, input, answer));
    var scaled := ScaledTo(bounded, input, specReplicas, replicas);
    var after := R.Apply(history, cfg.window, call);
    var decision := Some(Decision(call, min, max, replicas));
    if !scaled.ok then Step(scaled.status, after, decision, None, AfterError)
    else
      var conditions := PanicConditions(scaled.status.conditions, input, specReplicas, replicas);
      Step(scaled.status.(conditions := conditions), after, decision, scaled.write,
           if EntersPanic(input, specReplicas, replicas) then AfterPanic else AfterNormal)
  }

  ghost function Autoscaled(status: Status, history: R.History, cfg: Config, input: Input, scale: Scale): Step {
    if !scale.selectorParses then Step(status, history, None, None, AfterError)
    else if CoolingDown(status, input) && !UnderPanic(status, input) then
      Step(status, history, None, None, AfterNormal)
    else
      var c := Collect(status.targets, input.targets);
      match c.stop
      case Some(TargetFailed) => Step(status.(targets := c.targets), history, None, None, AfterError)
      case Some(ScalerMissing(metric)) =>
        var conditions := C.Set(status.conditions, C.Ready, C.False, C.ScalerNotExists(metric), input.clock.notFound);
        Step(status.(targets := c.targets, conditions := conditions), history, None, None, AfterNormal)
      case None =>
        var purged := status.(targets := T.Purge(c.managed, c.targets));
        if SelectedReplicator(input.spec) != DEFAULT_REPLICATOR then
          var conditions := C.Set(status.conditions, C.Ready, C.False, C.ReplicatorNotExists, input.clock.notFound);
          Step(purged.(conditions := conditions), history, None, None, NotRequeue)
        else Decided(purged, history, cfg, input, scale.specReplicas, c.outputs)
  }

  /** A fixed replica count: no gate, no replicator, no patch. */
  function Static(status: Status, history: R.History, input: Input, scale: Scale): Step {
    var scaled := ScaledTo(status, input, scale.specReplicas, input.spec.maxReplicas);
    Step(scaled.status, history, None, scaled.write, if scaled.ok then NotRequeue else AfterError)
  }

  function Observed(status: Status, input: Input, scale: Scale): Status {
    var pending := input.exhaust == OnPending;
    status.(
      currentReplicas := scale.statusReplicas,
      conditions := C.Set(status.conditions, C.Exhausted, if pending then C.True else C.False,
                          if pending then C.ExhaustedOnPending else C.NoReason, input.clock.exhaust))
  }

  ghost function Reconciled(status: Status, history: R.History, cfg: Config, input: Input): Step {
    if input.deleting then Step(status, history, None, None, AfterNormal)
    else
      match input.scale
      case None =>
        var conditions := C.Set(status.conditions, C.Ready, C.False, C.FailedToGetScaleTarget, input.clock.exhaust);
        Step(status.(conditions := conditions), history, None, None, NotRequeue)
      case Some(scale) =>
        if input.exhaust == CheckFailed then Step(status, history, None, None, AfterError)
        else
          var observed := Observed(status, input, scale);
          var s := if input.spec.minReplicas.None? then Static(observed, history, input, scale)
                   else Autoscaled(observed, history, cfg, input, scale);
          s.(status := s.status.(conditions := C.Set(s.status.conditions, C.Ready, C.True, C.NoReason,
                                                     input.clock.ready)))
  }

  // ---------------------------------------------------------------- the reconciler

  /** The reconciler at work on one autoscaler's status. */
  class Reconciler {
    const cfg: Config
    const replicator: R.SimpleReplicator
    var lastScaleTime: Option<Time>
    var currentReplicas: int
    var desiredReplicas: int
    var targets: T.Targets
    var conditions: C.ConditionList

    ghost function View(): Status
      reads this
    {
      Status(lastScaleTime, currentReplicas, desiredReplicas, targets, conditions)
    }

    constructor (cfg: Config, replicator: R.SimpleReplicator, status: Status)
      ensures this.cfg == cfg && this.replicator == replicator && View() == status
    {
      this.cfg, this.replicator := cfg, replicator;
      lastScaleTime := status.lastScaleTime;
      currentReplicas, desiredReplicas := status.currentReplicas, status.desiredReplicas;
      targets, conditions := status.targets, status.conditions;
    }

    method ScaleReplicas(input: Input, specReplicas: int, desired: int) returns (write: Option<int>, ok: bool)
      modifies this
      ensures Scaled(View(), write, ok) == ScaledTo(old(View()), input, specReplicas, desired)
    {
      desiredReplicas := desired;
      if specReplicas == desired {
        return None, true;
      }
      write := None;
      if PerformsScaling(input.dryRun) {
        if !input.updateOk {
          conditions := C.SetCondition(conditions, C.Ready, C.False, C.FailedToScale, input.clock.scaled);
          return None, false;
        }
        write := Some(desired);
      }
      lastScaleTime := Some(input.clock.scaled);
      ok := true;
    }

    method CollectOutputs(input: Input) returns (outputs: map<string, int>, managed: seq<string>, stop: Option<Stop>)
      modifies this
      ensures Collected(targets, outputs, managed, stop) == Collect(old(targets), input.targets)
      ensures View() == old(View()).(targets := targets)
    {
      outputs, managed, stop := map[], [], None;
      for i := 0 to |input.targets|
        invariant Collected(targets, outputs, managed, None) == Collect(old(targets), input.targets[..i])
        invariant stop.None? && View() == old(View()).(targets := targets)
      {
        var target := input.targets[i];
        assert input.targets[..i + 1][..i] == input.targets[..i];
        match target.outcome {
          case BadSettings =>
            stop := Some(TargetFailed);
            StopsThere(old(targets), input.targets, i + 1);
            return;
          case NoSuchScaler =>
            stop := Some(ScalerMissing(target.metric));
            StopsThere(old(targets), input.targets, i + 1);
            return;
          case ScalerFailed(updates) =>
            UpdateTargets(updates);
            stop := Some(TargetFailed);
            StopsThere(old(targets), input.targets, i + 1);
            return;
          case Answered(desired, names, updates) =>
            UpdateTargets(updates);
            outputs := outputs[target.metric := desired];
            managed := managed + names;
        }
      }
      assert input.targets[..|input.targets|] == input.targets;
    }

    /** A scaler's writes to the shared status. */
    method UpdateTargets(updates: seq<T.TargetStatus>)
      modifies this
      ensures View() == old(View()).(targets := T.SetAll(old(targets), updates))
    {
      for i := 0 to |updates|
        invariant View() == old(View()).(targets := T.SetAll(old(targets), updates[..i]))
      {
        assert updates[..i + 1][..i] == updates[..i];
        targets := T.SetTargetStatus(targets, updates[i]);
      }
      assert updates[..|updates|] == updates;
    }

    method GetWorkingReplicaPatch(input: Input) returns (patch: Option<P.ReplicaPatch>)
      ensures patch == WorkingPatch(cfg, input)
    {
      var annotation := P.PurgeUnusedReplicaPatches(cfg.parsers, input.patches, input.clock.purge);
      var list := P.PatchesOf(annotation);
      if list.Err? {
        return None;
      }
      var found := P.GetReplicaPatch(cfg.parsers, input.clock.lookup, list.value);
      return if found.Err? then None else found.value;
    }

    /** Chooses the bounds, clamps, and sets the conditions that say so. */
    method ApplyBounds(input: Input, answer: int) returns (desired: int)
      requires input.spec.minReplicas.Some?
      modifies this
      ensures desired == Clamp(answer, MinReplicas(cfg, input), MaxReplicas(cfg, input))
      ensures View() == old(View()).(conditions := BoundConditions(old(conditions), cfg, input, answer))
    {
      var minReplicas, maxReplicas := input.spec.minReplicas.value, input.spec.maxReplicas;
      conditions := C.SetCondition(conditions, C.ReplicaPatched, C.False, C.NoPatchApplied, input.clock.unpatched);
      var patch := GetWorkingReplicaPatch(input);
      if patch.Some? {
        minReplicas, maxReplicas := patch.value.minReplicas, patch.value.maxReplicas;
        conditions := C.SetCondition(conditions, C.ReplicaPatched, C.True,
                                     C.PatchApplied(minReplicas, maxReplicas), input.clock.patched);
      }
      desired := answer;
      var reason := C.NoReason;
      if desired > maxReplicas {
        desired := maxReplicas;
        reason := C.ReachMaxReplicas;
      }
      if desired < minReplicas {
        desired := minReplicas;
        reason := C.ReachMinimalReplicas;
      }
      if reason != C.NoReason {
        conditions := C.SetCondition(conditions, C.ScaleLimited, C.True, reason, input.clock.limited);
      } else {
        conditions := C.SetCondition(conditions, C.ScaleLimited, C.False, C.NoReason, input.clock.limited);
      }
    }

    method UpdatePanicMode(input: Input, specReplicas: int, desired: int) returns (requeue: Requeue)
      modifies this
      ensures View() == old(View()).(conditions := PanicConditions(old(conditions), input, specReplicas, desired))
      ensures requeue == if EntersPanic(input, specReplicas, desired) then AfterPanic else AfterNormal
    {
      if C.ShouldEnterPanicMode(desired, specReplicas, input.spec.strategy) {
        conditions := C.SetCondition(conditions, C.PanicMode, C.True, C.NoReason, input.clock.panicSet);
        return AfterPanic;
      }
      if !C.StillInPanicMode(conditions, input.spec.strategy, input.clock.panicCheck) {
        conditions := C.SetCondition(conditions, C.PanicMode, C.False, C.NoReason, input.clock.panicSet);
      }
      return AfterNormal;
    }

    method ReconcileAutoscaling(input: Input, scale: Scale)
      returns (ghost decision: Option<Decision>, write: Option<int>, requeue: Requeue)
      requires input.spec.minReplicas.Some? && replicator.window == cfg.window
      modifies this, replicator
      ensures Step(View(), replicator.history, decision, write, requeue)
              == Autoscaled(old(View()), old(replicator.history), cfg, input, scale)
    {
      decision, write := None, None;
      if !scale.selectorParses {
        return None, None, AfterError;
      }
      var underPanicModeCurrently := C.StillInPanicMode(conditions, input.spec.strategy, input.clock.gate);
      if lastScaleTime.Some? && input.clock.sinceScale - lastScaleTime.value < COOL_DOWN && !underPanicModeCurrently {
        return None, None, AfterNormal;
      }
      var outputs, managed, stop := CollectOutputs(input);
      if stop.Some? {
        match stop.value {
          case TargetFailed =>
            return None, None, AfterError;
          case ScalerMissing(metric) =>
            conditions := C.SetCondition(conditions, C.Ready, C.False, C.ScalerNotExists(metric), input.clock.notFound);
            return None, None, AfterNormal;
        }
      }
      targets := T.PurgeTargetStatus(managed, targets);
      if SelectedReplicator(input.spec) != DEFAULT_REPLICATOR {
        conditions := C.SetCondition(conditions, C.Ready, C.False, C.ReplicatorNotExists, input.clock.notFound);
        return None, None, NotRequeue;
      }
      decision, write, requeue := Decide(input, scale, outputs);
    }

    method Decide(input: Input, scale: Scale, outputs: map<string, int>)
      returns (ghost decision: Option<Decision>, write: Option<int>, requeue: Requeue)
      requires input.spec.minReplicas.Some? && replicator.window == cfg.window
      modifies this, replicator
      ensures Step(View(), replicator.history, decision, write, requeue)
              == Decided(old(View()), old(replicator.history), cfg, input, scale.specReplicas, outputs)
    {
      var call := CallOf(cfg, input, scale.specReplicas, outputs);
      var answer := replicator.GetDesiredReplicas(cfg.name, cfg.namespace, call);
      var desired := ApplyBounds(input, answer);
      decision := Some(Decision(call, MinReplicas(cfg, input), MaxReplicas(cfg, input), desired));
      var ok;
      write, ok := ScaleReplicas(input, scale.specReplicas, desired);
      if !ok {
        requeue := AfterError;
      } else {
        requeue := UpdatePanicMode(input, scale.specReplicas, desired);
      }
    }

    method Reconcile(input: Input)
      returns (ghost decision: Option<Decision>, write: Option<int>, requeue: Requeue)
      requires replicator.window == cfg.window
      modifies this, replicator
      ensures Step(View(), replicator.history, decision, write, requeue)
              == Reconciled(old(View()), old(replicator.history), cfg, input)
    {
      decision, write := None, None;
      if input.deleting {
        return None, None, AfterNormal;
      }
      if input.scale.None? {
        conditions := C.SetCondition(conditions, C.Ready, C.False, C.FailedToGetScaleTarget, input.clock.exhaust);
        return None, None, NotRequeue;
      }
      var scale := input.scale.value;
      if input.exhaust == CheckFailed {
        return None, None, AfterError;
      }
      if input.exhaust == OnPending {
        conditions := C.SetCondition(conditions, C.Exhausted, C.True, C.ExhaustedOnPending, input.clock.exhaust);
      } else {
        conditions := C.SetCondition(conditions, C.Exhausted, C.False, C.NoReason, input.clock.exhaust);
      }
      currentReplicas := scale.statusReplicas;
      if input.spec.minReplicas.None? {
        var ok;
        write, ok := ScaleReplicas(input, scale.specReplicas, input.spec.maxReplicas);
        requeue := if ok then NotRequeue else AfterError;
      } else {
        decision, write, requeue := ReconcileAutoscaling(input, scale);
      }
      conditions := C.SetCondition(conditions, C.Ready, C.True, C.NoReason, input.clock.ready);
    }
  }

  /** Once the loop stopped, later targets change nothing. */
  lemma {:induction false} StopsThere(statuses: T.Targets, targets: seq<Target>, n: nat)
    requires n <= |targets| && Collect(statuses, targets[..n]).stop.Some?
    ensures Collect(statuses, targets) == Collect(statuses, targets[..n])
    decreases |targets|
  {
    if n < |targets| {
      assert targets[..|targets| - 1][..n] == targets[..n];
      StopsThere(statuses, targets[..|targets| - 1], n);
    } else {
      assert targets[..n] == targets;
    }
  }
}
