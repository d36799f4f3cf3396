/** Runs of reconciles, and what one of them can do to the stored panic entry. */
module ControllerRuns {
  import opened Common
  import opened Controller
  import C = Conditions
  import T = TargetStatuses
  import R = Replicator

  /** What outlives a reconcile: the stored status and the replicator's buffers. */
  datatype System = System(status: Status, history: R.History)

  /** What a status reads as after it was stored: instants keep whole seconds. */
  function Persisted(status: Status): Status {
    status.(
      lastScaleTime := match status.lastScaleTime { case None => None case Some(t) => Some(WholeSeconds(t)) },
      conditions := C.Stored(status.conditions))
  }

  /** The buffers this reconcile finds: the other autoscalers' calls came in between. */
  ghost function Buffers(cfg: Config, sys: System, input: Input): R.History {
    R.Feed(sys.history, cfg.window, input.others)
  }

  ghost function StepOf(cfg: Config, sys: System, input: Input): Step {
    Reconciled(sys.status, Buffers(cfg, sys, input), cfg, input)
  }

  /** One reconcile and the attempt to store its status; a failed attempt loses the status, not the buffers. */
  ghost function Next(cfg: Config, sys: System, input: Input): System {
    var s := StepOf(cfg, sys, input);
    System(if input.statusPatchOk then Persisted(s.status) else sys.status, s.history)
  }

  ghost function Run(cfg: Config, sys: System, inputs: seq<Input>): System {
    if inputs == [] then sys
    else Next(cfg, Run(cfg, sys, inputs[..|inputs| - 1]), inputs[|inputs| - 1])
  }

  ghost predicate ForwardRun(inputs: seq<Input>) {
    && (forall i :: 0 <= i < |inputs| ==> inputs[i].clock.Forward())
    && (forall i, j :: 0 <= i < j < |inputs| ==> inputs[i].clock.ready <= inputs[j].clock.purge)
  }

  // ---------------------------------------------------------------- conditions across one reconcile

  function Panic(status: Status): C.Condition {
    C.Get(status.conditions, C.PanicMode)
  }

  /** BoundConditions touches ReplicaPatched and ScaleLimited only. */
  lemma {:induction false} BoundFrame(conditions: C.ConditionList, cfg: Config, input: Input, answer: int,
                                      kind: C.ConditionType)
    requires kind != C.ReplicaPatched && kind != C.ScaleLimited
    ensures C.Get(BoundConditions(conditions, cfg, input, answer), kind) == C.Get(conditions, kind)
  {
    var min, max, c := MinReplicas(cfg, input), MaxReplicas(cfg, input), input.clock;
    var unpatched := C.Set(conditions, C.ReplicaPatched, C.False, C.NoPatchApplied, c.unpatched);
    var patched := C.Set(unpatched, C.ReplicaPatched, C.True, C.PatchApplied(min, max), c.patched);
    var reason := LimitReason(answer, min, max);
    var limited := if reason == C.NoReason then C.False else C.True;
    C.GetAfterSet(conditions, C.ReplicaPatched, C.False, C.NoPatchApplied, c.unpatched, kind);
    C.GetAfterSet(unpatched, C.ReplicaPatched, C.True, C.PatchApplied(min, max), c.patched, kind);
    C.GetAfterSet(unpatched, C.ScaleLimited, limited, reason, c.limited, kind);
    C.GetAfterSet(patched, C.ScaleLimited, limited, reason, c.limited, kind);
  }

  /** A failed scale write touches Ready only. */
  lemma {:induction false} ScaledFrame(status: Status, input: Input, specReplicas: int, desired: int,
                                       kind: C.ConditionType)
    requires kind != C.Ready
    ensures C.Get(ScaledTo(status, input, specReplicas, desired).status.conditions, kind)
            == C.Get(status.conditions, kind)
  {
    C.GetAfterSet(status.conditions, C.Ready, C.False, C.FailedToScale, input.clock.scaled, kind);
  }

  lemma {:induction false} ReadyFrame(conditions: C.ConditionList, kind: C.ConditionType)
    requires kind != C.Ready
    ensures forall status, reason, now ::
              C.Get(C.Set(conditions, C.Ready, status, reason, now), kind) == C.Get(conditions, kind)
  {
    forall status, reason, now
      ensures C.Get(C.Set(conditions, C.Ready, status, reason, now), kind) == C.Get(conditions, kind)
    {
      C.GetAfterSet(conditions, C.Ready, status, reason, now, kind);
    }
  }

  // ---------------------------------------------------------------- panic mode: one step

  /** A panic entry as it is stored: no reason, whole seconds, absent or of its own kind. */
  ghost predicate PanicStored(p: C.Condition) {
    && p.reason == C.NoReason && p.lastTransition % SECOND == 0
    && (p.kind == C.PanicMode || p.status == C.NoStatus)
  }

  ghost predicate Live(p: C.Condition, strategy: Option<C.Strategy>, now: Time) {
    && C.IsPanicModeConfigured(strategy) && p.kind == C.PanicMode && p.status == C.True
    && now - p.lastTransition < strategy.value.panicWindowSeconds.value * SECOND
  }

  /** Panic mode was off, the decision asks for it, and it is on as of this reconcile's write. */
  ghost predicate TurnedOn(input: Input, decision: Option<Decision>, before: C.Condition, after: C.Condition,
                           at: Time) {
    && before.status != C.True
    && decision.Some? && input.scale.Some?
    && EntersPanic(input, input.scale.value.specReplicas, decision.value.replicas)
    && after == C.Condition(C.PanicMode, C.True, C.NoReason, at)
  }

  /** Panic mode was not live when the reconcile looked, and was written off. */
  ghost predicate TurnedOff(input: Input, before: C.Condition, after: C.Condition, at: Time) {
    && before.status != C.False && !Live(before, input.spec.strategy, input.clock.panicCheck)
    && after == C.Condition(C.PanicMode, C.False, C.NoReason, at)
  }

  /** All that a reconcile can do to the panic entry: leave it, turn it on, turn it off. */
  ghost predicate PanicMove(input: Input, decision: Option<Decision>, before: C.Condition, after: C.Condition,
                            at: Time) {
    after == before || TurnedOn(input, decision, before, after, at) || TurnedOff(input, before, after, at)
  }

  lemma {:induction false} PanicConditionsMove(conditions: C.ConditionList, input: Input, decision: Decision)
    requires C.Get(conditions, C.PanicMode).reason == C.NoReason && input.scale.Some?
    ensures PanicMove(input, Some(decision), C.Get(conditions, C.PanicMode),
                      C.Get(PanicConditions(conditions, input, input.scale.value.specReplicas, decision.replicas),
                            C.PanicMode),
                      input.clock.panicSet)
  {
    C.GetKind(conditions, C.PanicMode);
    C.GetAfterSet(conditions, C.PanicMode, C.True, C.NoReason, input.clock.panicSet, C.PanicMode);
    C.GetAfterSet(conditions, C.PanicMode, C.False, C.NoReason, input.clock.panicSet, C.PanicMode);
  }

  lemma {:induction false} DecidedPanicMove(status: Status, history: R.History, cfg: Config, input: Input,
                                            outputs: map<string, int>)
    requires Panic(status).reason == C.NoReason && input.scale.Some?
    ensures var s := Decided(status, history, cfg, input, input.scale.value.specReplicas, outputs);
            PanicMove(input, s.decision, Panic(status), Panic(s.status), input.clock.panicSet)
  {
    var spec := input.scale.value.specReplicas;
    var s := Decided(status, history, cfg, input, spec, outputs);
    var answer := R.Answer(history, cfg.window, s.decision.value.call);
    var bounded := status.(conditions := BoundConditions(status.conditions, cfg, input, answer));
    var scaled := ScaledTo(bounded, input, spec, s.decision.value.replicas);
    BoundFrame(status.conditions, cfg, input, answer, C.PanicMode);
    ScaledFrame(bounded, input, spec, s.decision.value.replicas, C.PanicMode);
    PanicConditionsMove(scaled.status.conditions, input, s.decision.value);
  }

  lemma {:induction false} AutoscaledPanicMove(status: Status, history: R.History, cfg: Config, input: Input)
    requires Panic(status).reason == C.NoReason && input.scale.Some?
    ensures var s := Autoscaled(status, history, cfg, input, input.scale.value);
            PanicMove(input, s.decision, Panic(status), Panic(s.status), input.clock.panicSet)
  {
    var c := Collect(status.targets, input.targets);
    if c.stop.None? && SelectedReplicator(input.spec) == DEFAULT_REPLICATOR {
      DecidedPanicMove(status.(targets := T.Purge(c.managed, c.targets)), history, cfg, input, c.outputs);
    } else {
      ReadyFrame(status.conditions, C.PanicMode);
    }
  }

  lemma {:induction false} ReconciledPanicMove(status: Status, history: R.History, cfg: Config, input: Input)
    requires Panic(status).reason == C.NoReason
    ensures var s := Reconciled(status, history, cfg, input);
            PanicMove(input, s.decision, Panic(status), Panic(s.status), input.clock.panicSet)
  {
    ReadyFrame(status.conditions, C.PanicMode);
    if input.scale.Some? && input.exhaust != CheckFailed {
      var observed := Observed(status, input, input.scale.value);
      var exhausted := observed.conditions;
      C.GetAfterSet(status.conditions, C.Exhausted, if input.exhaust == OnPending then C.True else C.False,
                    if input.exhaust == OnPending then C.ExhaustedOnPending else C.NoReason, input.clock.exhaust,
                    C.PanicMode);
      if input.spec.minReplicas.None? {
        var s := Static(observed, history, input, input.scale.value);
        ScaledFrame(observed, input, input.scale.value.specReplicas, input.spec.maxReplicas, C.PanicMode);
        ReadyFrame(s.status.conditions, C.PanicMode);
      } else {
        var s := Autoscaled(observed, history, cfg, input, input.scale.value);
        AutoscaledPanicMove(observed, history, cfg, input);
        ReadyFrame(s.status.conditions, C.PanicMode);
      }
    }
  }

  /** The same for the stored entry, at the whole second of the write. */
  lemma {:induction false} NextPanicMove(cfg: Config, sys: System, input: Input)
    requires PanicStored(Panic(sys.status))
    ensures var before, after := Panic(sys.status), Panic(Next(cfg, sys, input).status);
            && PanicStored(after)
            && PanicMove(input, StepOf(cfg, sys, input).decision, before, after, WholeSeconds(input.clock.panicSet))
  {
    var s := StepOf(cfg, sys, input);
    ReconciledPanicMove(sys.status, Buffers(cfg, sys, input), cfg, input);
    C.GetStored(s.status.conditions, C.PanicMode);
  }

  // ---------------------------------------------------------------- reconciles that decide

  /** The status that reaches the replicator, and the outputs it is asked about. */
  function Entering(status: Status, input: Input): (Status, map<string, int>)
    requires input.scale.Some?
  {
    var observed := Observed(status, input, input.scale.value);
    var c := Collect(observed.targets, input.targets);
    (observed.(targets := T.Purge(c.managed, c.targets)), c.outputs)
  }

  function WithReady(s: Step, now: Time): Step {
    s.(status := s.status.(conditions := C.Set(s.status.conditions, C.Ready, C.True, C.NoReason, now)))
  }

  /** A reconcile with a decision is past the gate, without a failed target, and on the default replicator. */
  lemma {:induction false} DecisionPath(status: Status, history: R.History, cfg: Config, input: Input)
    requires Reconciled(status, history, cfg, input).decision.Some?
    ensures input.scale.Some? && input.spec.minReplicas.Some?
    ensures Collect(status.targets, input.targets).stop.None?
    ensures Reconciled(status, history, cfg, input)
            == WithReady(Decided(Entering(status, input).0, history, cfg, input, input.scale.value.specReplicas,
                                 Entering(status, input).1), input.clock.ready)
  {
  }

  lemma {:induction false} EnteringPanic(conditions: C.ConditionList, input: Input, specReplicas: int, desired: int)
    requires EntersPanic(input, specReplicas, desired)
    ensures var p := C.Get(PanicConditions(conditions, input, specReplicas, desired), C.PanicMode);
            p.kind == C.PanicMode && p.status == C.True
  {
    C.GetKind(conditions, C.PanicMode);
    C.GetAfterSet(conditions, C.PanicMode, C.True, C.NoReason, input.clock.panicSet, C.PanicMode);
  }

  /** A decision reported as panic mode leaves the entry on. */
  lemma {:induction false} DecidedTrigger(status: Status, history: R.History, cfg: Config, input: Input,
                                          specReplicas: int,
                                          outputs: map<string, int>)
    requires Decided(status, history, cfg, input, specReplicas, outputs).requeue == AfterPanic
    ensures C.IsPanicModeConfigured(input.spec.strategy)
    ensures var p := Panic(Decided(status, history, cfg, input, specReplicas, outputs).status);
            p.kind == C.PanicMode && p.status == C.True
  {
    var s := Decided(status, history, cfg, input, specReplicas, outputs);
    var answer := R.Answer(history, cfg.window, s.decision.value.call);
    var bounded := status.(conditions := BoundConditions(status.conditions, cfg, input, answer));
    var scaled := ScaledTo(bounded, input, specReplicas, s.decision.value.replicas);
    EnteringPanic(scaled.status.conditions, input, specReplicas, s.decision.value.replicas);
  }

  /** The same for a reconcile and its stored status. */
  lemma {:induction false} TriggerTurnsOn(cfg: Config, sys: System, input: Input)
    requires input.statusPatchOk
    requires StepOf(cfg, sys, input).decision.Some? && StepOf(cfg, sys, input).requeue == AfterPanic
    ensures C.IsPanicModeConfigured(input.spec.strategy)
    ensures var after := Panic(Next(cfg, sys, input).status);
            after.kind == C.PanicMode && after.status == C.True
  {
    var (entering, outputs) := Entering(sys.status, input);
    var s := Decided(entering, Buffers(cfg, sys, input), cfg, input, input.scale.value.specReplicas, outputs);
    DecisionPath(sys.status, Buffers(cfg, sys, input), cfg, input);
    DecidedTrigger(entering, Buffers(cfg, sys, input), cfg, input, input.scale.value.specReplicas, outputs);
    ReadyFrame(s.status.conditions, C.PanicMode);
    C.GetStored(StepOf(cfg, sys, input).status.conditions, C.PanicMode);
  }

  /** In dry run a decision is reported as panic mode exactly when it asks for it. */
  lemma {:induction false} DryRunRequeue(cfg: Config, sys: System, input: Input)
    requires StepOf(cfg, sys, input).decision.Some? && !PerformsScaling(input.dryRun)
    ensures input.scale.Some?
    ensures StepOf(cfg, sys, input).requeue ==
            if EntersPanic(input, input.scale.value.specReplicas, StepOf(cfg, sys, input).decision.value.replicas)
            then AfterPanic else AfterNormal
  {
    DecisionPath(sys.status, Buffers(cfg, sys, input), cfg, input);
  }
}
