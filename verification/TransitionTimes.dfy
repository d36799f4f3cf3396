/** When the transition times of the status conditions move across one reconcile. */
module TransitionTimes {
  import opened Common
  import opened Bounds
  import opened Controller
  import opened ControllerRuns
  import opened PanicRuns
  import opened ScaleRuns
  import C = Conditions
  import T = TargetStatuses
  import P = ReplicaPatches
  import R = Replicator

  /** A transition time that moved tells of a different status or reason. */
  ghost predicate MovesOnNetChange(before: C.Condition, after: C.Condition) {
    before.kind != C.NoType && after.lastTransition != before.lastTransition ==>
      after.status != before.status || after.reason != before.reason
  }

  /** What the bounds make of the answer: the lower one wins when they cross. */
  function LimitOf(answer: int, min: int, max: int): (C.ConditionStatus, C.Reason) {
    if answer < min || max < min then (C.True, C.ReachMinimalReplicas)
    else if answer > max then (C.True, C.ReachMaxReplicas)
    else (C.False, C.NoReason)
  }

  /** The ReplicaPatched entry after the bounds were chosen: without a patch it is off, with one on anew. */
  function PatchedEntry(before: C.Condition, patch: Option<P.ReplicaPatch>, clock: Clock): C.Condition {
    match patch
    case None => C.Rewritten(before, C.ReplicaPatched, C.False, C.NoPatchApplied, clock.unpatched)
    case Some(p) => C.Condition(C.ReplicaPatched, C.True, C.PatchApplied(p.minReplicas, p.maxReplicas), clock.patched)
  }

  lemma {:induction false} BoundWrites(conditions: C.ConditionList, cfg: Config, input: Input, answer: int)
    requires input.spec.minReplicas.Some?
    ensures var after := BoundConditions(conditions, cfg, input, answer);
            var (min, max) := BoundsInForce(cfg, input);
            && C.Get(after, C.ScaleLimited) ==
               C.Rewritten(C.Get(conditions, C.ScaleLimited), C.ScaleLimited, LimitOf(answer, min, max).0,
                           LimitOf(answer, min, max).1, input.clock.limited)
            && C.Get(after, C.ReplicaPatched) ==
               PatchedEntry(C.Get(conditions, C.ReplicaPatched), WorkingPatch(cfg, input), input.clock)
  {
    var (min, max) := BoundsInForce(cfg, input);
    var c := input.clock;
    var unpatched := C.Set(conditions, C.ReplicaPatched, C.False, C.NoPatchApplied, c.unpatched);
    var twice := C.Set(unpatched, C.ReplicaPatched, C.True, C.PatchApplied(min, max), c.patched);
    var patched := if WorkingPatch(cfg, input).None? then unpatched else twice;
    var (status, reason) := LimitOf(answer, min, max);
    C.GetAfterSet(conditions, C.ReplicaPatched, C.False, C.NoPatchApplied, c.unpatched, C.ReplicaPatched);
    C.GetAfterSet(unpatched, C.ReplicaPatched, C.True, C.PatchApplied(min, max), c.patched, C.ReplicaPatched);
    C.GetAfterSet(patched, C.ScaleLimited, status, reason, c.limited, C.ReplicaPatched);
    C.GetAfterSet(conditions, C.ReplicaPatched, C.False, C.NoPatchApplied, c.unpatched, C.ScaleLimited);
    C.GetAfterSet(unpatched, C.ReplicaPatched, C.True, C.PatchApplied(min, max), c.patched, C.ScaleLimited);
    C.GetAfterSet(patched, C.ScaleLimited, status, reason, c.limited, C.ScaleLimited);
    assert BoundConditions(conditions, cfg, input, answer) == C.Set(patched, C.ScaleLimited, status, reason, c.limited);
  }

  lemma {:induction false} PanicFrame(conditions: C.ConditionList, input: Input, specReplicas: int, desired: int,
                                      kind: C.ConditionType)
    requires kind != C.PanicMode
    ensures C.Get(PanicConditions(conditions, input, specReplicas, desired), kind) == C.Get(conditions, kind)
  {
    C.GetAfterSet(conditions, C.PanicMode, C.True, C.NoReason, input.clock.panicSet, kind);
    C.GetAfterSet(conditions, C.PanicMode, C.False, C.NoReason, input.clock.panicSet, kind);
  }

  /** After the bounds nothing touches these two. */
  lemma {:induction false} DecidedFrame(status: Status, history: R.History, cfg: Config, input: Input,
                                        specReplicas: int,
                                        outputs: map<string, int>, kind: C.ConditionType)
    requires kind == C.ScaleLimited || kind == C.ReplicaPatched
    ensures var s := Decided(status, history, cfg, input, specReplicas, outputs);
            var answer := R.Answer(history, cfg.window, CallOf(cfg, input, specReplicas, outputs));
            C.Get(s.status.conditions, kind) == C.Get(BoundConditions(status.conditions, cfg, input, answer), kind)
  {
    var s := Decided(status, history, cfg, input, specReplicas, outputs);
    var answer := R.Answer(history, cfg.window, CallOf(cfg, input, specReplicas, outputs));
    var bounded := status.(conditions := BoundConditions(status.conditions, cfg, input, answer));
    var scaled := ScaledTo(bounded, input, specReplicas, s.decision.value.replicas);
    ScaledFrame(bounded, input, specReplicas, s.decision.value.replicas, kind);
    PanicFrame(scaled.status.conditions, input, specReplicas, s.decision.value.replicas, kind);
  }

  lemma {:induction false} AutoscaledUndecided(status: Status, history: R.History, cfg: Config, input: Input,
                                               scale: Scale, kind: C.ConditionType)
    requires kind != C.Ready && Autoscaled(status, history, cfg, input, scale).decision.None?
    ensures C.Get(Autoscaled(status, history, cfg, input, scale).status.conditions, kind)
            == C.Get(status.conditions, kind)
  {
    ReadyFrame(status.conditions, kind);
  }

  lemma {:induction false} ReconciledFlow(cfg: Config, sys: System, input: Input)
    requires FindsTarget(input)
    ensures var observed := Observed(sys.status, input, input.scale.value);
            var s := if input.spec.minReplicas.None?
                     then Static(observed, Buffers(cfg, sys, input), input, input.scale.value)
                     else Autoscaled(observed, Buffers(cfg, sys, input), cfg, input, input.scale.value);
            StepOf(cfg, sys, input) == WithReady(s, input.clock.ready)
  {
  }

  /** A reconcile without a decision touches neither. */
  lemma {:induction false} UndecidedFrame(cfg: Config, sys: System, input: Input, kind: C.ConditionType)
    requires kind == C.ScaleLimited || kind == C.ReplicaPatched
    requires StepOf(cfg, sys, input).decision.None?
    ensures C.Get(StepOf(cfg, sys, input).status.conditions, kind) == C.Get(sys.status.conditions, kind)
  {
    if FindsTarget(input) {
      var scale, history := input.scale.value, Buffers(cfg, sys, input);
      var observed := Observed(sys.status, input, scale);
      ReconciledFlow(cfg, sys, input);
      ExhaustFrame(sys.status, input, scale, kind);
      if input.spec.minReplicas.None? {
        ScaledFrame(observed, input, scale.specReplicas, input.spec.maxReplicas, kind);
        ReadyFrame(Static(observed, history, input, scale).status.conditions, kind);
      } else {
        AutoscaledUndecided(observed, history, cfg, input, scale, kind);
        ReadyFrame(Autoscaled(observed, history, cfg, input, scale).status.conditions, kind);
      }
    } else {
      ReadyFrame(sys.status.conditions, kind);
    }
  }

  /** A reconcile with a decision leaves them as its bounds do. */
  lemma {:induction false} DecisionFrame(cfg: Config, sys: System, input: Input, kind: C.ConditionType)
    returns (entering: C.ConditionList, answer: int)
    requires kind == C.ScaleLimited || kind == C.ReplicaPatched
    requires StepOf(cfg, sys, input).decision.Some?
    ensures answer == R.Answer(Buffers(cfg, sys, input), cfg.window, StepOf(cfg, sys, input).decision.value.call)
    ensures C.Get(entering, kind) == C.Get(sys.status.conditions, kind)
    ensures C.Get(StepOf(cfg, sys, input).status.conditions, kind)
            == C.Get(BoundConditions(entering, cfg, input, answer), kind)
  {
    var (status, outputs) := Entering(sys.status, input);
    var scale, history := input.scale.value, Buffers(cfg, sys, input);
    var s := Decided(status, history, cfg, input, scale.specReplicas, outputs);
    entering := status.conditions;
    answer := R.Answer(history, cfg.window, CallOf(cfg, input, scale.specReplicas, outputs));
    DecisionPath(sys.status, history, cfg, input);
    ExhaustFrame(sys.status, input, scale, kind);
    DecidedFrame(status, history, cfg, input, scale.specReplicas, outputs, kind);
    ReadyFrame(s.status.conditions, kind);
  }

  // ---------------------------------------------------------------- ScaleLimited and ReplicaPatched

  /** The two entries after a reconcile that clamped this answer. */
  ghost predicate BoundEntries(cfg: Config, input: Input, before: C.ConditionList, after: C.ConditionList, answer: int)
    requires input.spec.minReplicas.Some?
  {
    var (min, max) := BoundsInForce(cfg, input);
    var (status, reason) := LimitOf(answer, min, max);
    && C.Get(after, C.ScaleLimited)
       == C.Rewritten(C.Get(before, C.ScaleLimited), C.ScaleLimited, status, reason, input.clock.limited)
    && C.Get(after, C.ReplicaPatched)
       == PatchedEntry(C.Get(before, C.ReplicaPatched), WorkingPatch(cfg, input), input.clock)
  }

  lemma {:induction false} DecisionEntries(cfg: Config, sys: System, input: Input)
    requires StepOf(cfg, sys, input).decision.Some?
    ensures input.spec.minReplicas.Some?
    ensures var s := StepOf(cfg, sys, input);
            BoundEntries(cfg, input, sys.status.conditions, s.status.conditions,
                         R.Answer(Buffers(cfg, sys, input), cfg.window, s.decision.value.call))
  {
    DecisionPath(sys.status, Buffers(cfg, sys, input), cfg, input);
    var limited, answer := DecisionFrame(cfg, sys, input, C.ScaleLimited);
    var patched, _ := DecisionFrame(cfg, sys, input, C.ReplicaPatched);
    BoundWrites(limited, cfg, input, answer);
    BoundWrites(patched, cfg, input, answer);
  }

  /**
   Every decision uses the bounds of the patch in force, or without one those of the specification, and
   says so: the replicas are the replicator's answer put between these bounds, ScaleLimited names the
   bound that was hit, and ReplicaPatched the patch. Every other reconcile leaves both entries alone.
   */
  lemma {:induction false} BoundsLaw(cfg: Config, sys: System, input: Input)
    ensures var s, before := StepOf(cfg, sys, input), sys.status.conditions;
            match s.decision
            case None =>
              && C.Get(s.status.conditions, C.ScaleLimited) == C.Get(before, C.ScaleLimited)
              && C.Get(s.status.conditions, C.ReplicaPatched) == C.Get(before, C.ReplicaPatched)
            case Some(d) =>
              var answer := R.Answer(Buffers(cfg, sys, input), cfg.window, d.call);
              && input.spec.minReplicas.Some? && (d.min, d.max) == BoundsInForce(cfg, input)
              && IsClamped(answer, d.min, d.max, d.replicas)
              && BoundEntries(cfg, input, before, s.status.conditions, answer)
  {
    if StepOf(cfg, sys, input).decision.None? {
      UndecidedFrame(cfg, sys, input, C.ScaleLimited);
      UndecidedFrame(cfg, sys, input, C.ReplicaPatched);
    } else {
      DecisionEntries(cfg, sys, input);
      DecisionIsShaped(cfg, sys, input);
    }
  }

  /** ScaleLimited moves its transition time only on a net change, in every reconcile. */
  lemma {:induction false} ScaleLimitedTransitions(cfg: Config, sys: System, input: Input)
    ensures MovesOnNetChange(C.Get(sys.status.conditions, C.ScaleLimited),
                             C.Get(StepOf(cfg, sys, input).status.conditions, C.ScaleLimited))
  {
    BoundsLaw(cfg, sys, input);
    C.GetKind(sys.status.conditions, C.ScaleLimited);
  }

  /** The reconcile decides with a patch in force. */
  ghost predicate DecidesPatched(cfg: Config, sys: System, input: Input) {
    && ReachesTargets(sys.status, input) && AllAnswered(input.targets)
    && UsesSimple(input.spec)
    && WorkingPatch(cfg, input).Some?
  }

  /** The stored entry already says what a decision under this patch will say. */
  ghost predicate SaysPatched(p: C.Condition, patch: P.ReplicaPatch) {
    p.status == C.True && p.reason == C.PatchApplied(patch.minReplicas, patch.maxReplicas)
  }

  /**
   ReplicaPatched is written off and on again by a decision under a patch: in every reconcile its
   transition time moves only on a net change, except exactly when the reconcile decides with a patch in
   force whose bounds the stored entry already announces, at another instant.
   */
  lemma {:induction false} ReplicaPatchedTransitionsIff(cfg: Config, sys: System, input: Input)
    ensures var before, after := C.Get(sys.status.conditions, C.ReplicaPatched),
                                 C.Get(StepOf(cfg, sys, input).status.conditions, C.ReplicaPatched);
            MovesOnNetChange(before, after) <==>
              !(DecidesPatched(cfg, sys, input) && SaysPatched(before, WorkingPatch(cfg, input).value)
                && before.lastTransition != input.clock.patched)
  {
    DecidesExactlyWhen(cfg, sys, input);
    BoundsLaw(cfg, sys, input);
    C.GetKind(sys.status.conditions, C.ReplicaPatched);
  }

  // ---------------------------------------------------------------- PanicMode and Exhausted

  /** PanicMode moves its transition time only on a net change, in every reconcile. */
  lemma {:induction false} PanicTransitions(cfg: Config, sys: System, input: Input)
    requires Panic(sys.status).reason == C.NoReason
    ensures MovesOnNetChange(Panic(sys.status), Panic(StepOf(cfg, sys, input).status))
  {
    ReconciledPanicMove(sys.status, Buffers(cfg, sys, input), cfg, input);
  }

  lemma {:induction false} DecidedKeepsExhausted(status: Status, history: R.History, cfg: Config, input: Input,
                                                 specReplicas: int, outputs: map<string, int>)
    ensures C.Get(Decided(status, history, cfg, input, specReplicas, outputs).status.conditions, C.Exhausted)
            == C.Get(status.conditions, C.Exhausted)
  {
    var s := Decided(status, history, cfg, input, specReplicas, outputs);
    var answer, replicas := R.Answer(history, cfg.window, s.decision.value.call), s.decision.value.replicas;
    var bounded := status.(conditions := BoundConditions(status.conditions, cfg, input, answer));
    BoundFrame(status.conditions, cfg, input, answer, C.Exhausted);
    ScaledFrame(bounded, input, specReplicas, replicas, C.Exhausted);
    PanicFrame(ScaledTo(bounded, input, specReplicas, replicas).status.conditions, input, specReplicas, replicas,
               C.Exhausted);
  }

  /** The autoscaling flow leaves the Exhausted entry alone. */
  lemma {:induction false} AutoscaledKeepsExhausted(status: Status, history: R.History, cfg: Config, input: Input,
                                                    scale: Scale)
    ensures C.Get(Autoscaled(status, history, cfg, input, scale).status.conditions, C.Exhausted)
            == C.Get(status.conditions, C.Exhausted)
  {
    var c := Collect(status.targets, input.targets);
    if c.stop.None? && SelectedReplicator(input.spec) == DEFAULT_REPLICATOR {
      DecidedKeepsExhausted(status.(targets := T.Purge(c.managed, c.targets)), history, cfg, input, scale.specReplicas,
                            c.outputs);
    } else {
      ReadyFrame(status.conditions, C.Exhausted);
    }
  }

  /** Exhausted moves its transition time only on a net change, in every reconcile. */
  lemma {:induction false} ExhaustedTransitions(cfg: Config, sys: System, input: Input)
    ensures MovesOnNetChange(C.Get(sys.status.conditions, C.Exhausted),
                             C.Get(StepOf(cfg, sys, input).status.conditions, C.Exhausted))
  {
    var before := sys.status.conditions;
    ReadyFrame(before, C.Exhausted);
    if !input.deleting && input.scale.Some? && input.exhaust != CheckFailed {
      var pending, scale := input.exhaust == OnPending, input.scale.value;
      var observed := Observed(sys.status, input, scale);
      var s := if input.spec.minReplicas.None? then Static(observed, Buffers(cfg, sys, input), input, scale)
               else Autoscaled(observed, Buffers(cfg, sys, input), cfg, input, scale);
      C.GetKind(before, C.Exhausted);
      C.GetAfterSet(before, C.Exhausted, if pending then C.True else C.False,
                    if pending then C.ExhaustedOnPending else C.NoReason, input.clock.exhaust, C.Exhausted);
      ScaledFrame(observed, input, scale.specReplicas, input.spec.maxReplicas, C.Exhausted);
      AutoscaledKeepsExhausted(observed, Buffers(cfg, sys, input), cfg, input, scale);
      ReadyFrame(s.status.conditions, C.Exhausted);
    }
  }

  // ---------------------------------------------------------------- Ready

  /** A write of this many replicas is due, is to be performed, and fails. */
  predicate WriteFails(input: Input, desired: int)
    requires input.scale.Some?
  {
    input.scale.value.specReplicas != desired && input.dryRun == Some("false") && !input.updateOk
  }

  /** The first target whose scaler does not answer has no scaler. */
  ghost predicate MissesScalerFirst(targets: seq<Target>) {
    exists i :: 0 <= i < |targets| && targets[i].outcome.NoSuchScaler?
                && forall j :: 0 <= j < i ==> targets[j].outcome.Answered?
  }

  /** The replicas the autoscaling flow is about to ask for, when every target answers. */
  ghost function AboutToAsk(cfg: Config, sys: System, input: Input): int
    requires input.scale.Some?
  {
    var outputs := Collect(sys.status.targets, input.targets).outputs;
    Clamp(R.Answer(Buffers(cfg, sys, input), cfg.window, CallOf(cfg, input, input.scale.value.specReplicas, outputs)),
          MinReplicas(cfg, input), MaxReplicas(cfg, input))
  }

  /**
   Something inside the reconcile turns Ready off: a missing scaler, a replicator that is not registered,
   or a failed write, of the static or of the autoscaled replicas.
   */
  ghost predicate TurnsReadyOff(cfg: Config, sys: System, input: Input) {
    && FindsTarget(input)
    && if input.spec.minReplicas.None? then WriteFails(input, input.spec.maxReplicas)
       else
         && ReachesTargets(sys.status, input)
         && (MissesScalerFirst(input.targets)
             || (AllAnswered(input.targets)
                 && (!UsesSimple(input.spec)
                     || WriteFails(input, AboutToAsk(cfg, sys, input)))))
  }

  lemma {:induction false} MissingScalerIff(statuses: T.Targets, targets: seq<Target>)
    ensures var stop := Collect(statuses, targets).stop;
            stop.Some? && stop.value.ScalerMissing? <==> MissesScalerFirst(targets)
  {
    if targets != [] {
      var front, target := targets[..|targets| - 1], targets[|targets| - 1];
      MissingScalerIff(statuses, front);
      AllAnsweredIff(statuses, front);
      assert forall i :: 0 <= i < |front| ==> front[i] == targets[i];
      if MissesScalerFirst(front) {
        var i :| 0 <= i < |front| && front[i].outcome.NoSuchScaler?
                 && forall j :: 0 <= j < i ==> front[j].outcome.Answered?;
        assert targets[i].outcome.NoSuchScaler?;
      }
      if MissesScalerFirst(targets) {
        var i :| 0 <= i < |targets| && targets[i].outcome.NoSuchScaler?
                 && forall j :: 0 <= j < i ==> targets[j].outcome.Answered?;
        assert i < |front| ==> front[i].outcome.NoSuchScaler?;
      }
    }
  }

  /** Ready before the final write of a reconcile: off, or as it came. */
  ghost predicate ReadyGoes(off: bool, before: C.Condition, after: C.Condition) {
    if off then after.kind == C.Ready && after.status == C.False else after == before
  }

  lemma {:induction false} OffBy(conditions: C.ConditionList, reason: C.Reason, now: Time)
    ensures ReadyGoes(true, C.Get(conditions, C.Ready),
                      C.Get(C.Set(conditions, C.Ready, C.False, reason, now), C.Ready))
  {
    C.GetKind(conditions, C.Ready);
    C.GetAfterSet(conditions, C.Ready, C.False, reason, now, C.Ready);
  }

  lemma {:induction false} ScaledReady(status: Status, input: Input, desired: int)
    requires input.scale.Some?
    ensures ReadyGoes(WriteFails(input, desired), C.Get(status.conditions, C.Ready),
                      C.Get(ScaledTo(status, input, input.scale.value.specReplicas, desired).status.conditions,
                            C.Ready))
  {
    OffBy(status.conditions, C.FailedToScale, input.clock.scaled);
  }

  lemma {:induction false} DecidedReady(status: Status, history: R.History, cfg: Config, input: Input,
                                        outputs: map<string, int>)
    requires input.scale.Some?
    ensures var s := Decided(status, history, cfg, input, input.scale.value.specReplicas, outputs);
            s.decision.Some?
            && ReadyGoes(WriteFails(input, s.decision.value.replicas), C.Get(status.conditions, C.Ready),
                         C.Get(s.status.conditions, C.Ready))
  {
    var spec := input.scale.value.specReplicas;
    var s := Decided(status, history, cfg, input, spec, outputs);
    var answer, replicas := R.Answer(history, cfg.window, s.decision.value.call), s.decision.value.replicas;
    var bounded := status.(conditions := BoundConditions(status.conditions, cfg, input, answer));
    BoundFrame(status.conditions, cfg, input, answer, C.Ready);
    ScaledReady(bounded, input, replicas);
    PanicFrame(ScaledTo(bounded, input, spec, replicas).status.conditions, input, spec, replicas, C.Ready);
  }

  lemma {:induction false} AutoscaledReady(status: Status, history: R.History, cfg: Config, input: Input)
    requires input.scale.Some?
    ensures var scale, c := input.scale.value, Collect(status.targets, input.targets);
            var answer := R.Answer(history, cfg.window, CallOf(cfg, input, scale.specReplicas, c.outputs));
            var desired := Clamp(answer, MinReplicas(cfg, input), MaxReplicas(cfg, input));
            var off := scale.selectorParses && PassesGate(status, input)
                       && ((c.stop.Some? && c.stop.value.ScalerMissing?)
                           || (c.stop.None?
                               && (!UsesSimple(input.spec)
                                   || WriteFails(input, desired))));
            ReadyGoes(off, C.Get(status.conditions, C.Ready),
                      C.Get(Autoscaled(status, history, cfg, input, scale).status.conditions, C.Ready))
  {
    var c := Collect(status.targets, input.targets);
    if c.stop.Some? && c.stop.value.ScalerMissing? {
      OffBy(status.conditions, C.ScalerNotExists(c.stop.value.metric), input.clock.notFound);
    } else if c.stop.None? && !UsesSimple(input.spec) {
      OffBy(status.conditions, C.ReplicatorNotExists, input.clock.notFound);
    } else if c.stop.None? {
      DecidedReady(status.(targets := T.Purge(c.managed, c.targets)), history, cfg, input, c.outputs);
    }
  }

  /** What the flow inside a reconcile does to Ready, in terms of the inputs alone. */
  lemma {:induction false} InsideReady(cfg: Config, sys: System, input: Input)
    requires FindsTarget(input)
    ensures var scale, history := input.scale.value, Buffers(cfg, sys, input);
            var observed := Observed(sys.status, input, scale);
            var s := if input.spec.minReplicas.None? then Static(observed, history, input, scale)
                     else Autoscaled(observed, history, cfg, input, scale);
            && StepOf(cfg, sys, input) == WithReady(s, input.clock.ready)
            && ReadyGoes(TurnsReadyOff(cfg, sys, input), C.Get(sys.status.conditions, C.Ready),
                         C.Get(s.status.conditions, C.Ready))
  {
    var scale := input.scale.value;
    var observed := Observed(sys.status, input, scale);
    ExhaustFrame(sys.status, input, scale, C.Ready);
    if input.spec.minReplicas.None? {
      ScaledReady(observed, input, input.spec.maxReplicas);
    } else {
      AutoscaledReady(observed, Buffers(cfg, sys, input), cfg, input);
      ExhaustFrame(sys.status, input, scale, C.PanicMode);
      assert PassesGate(observed, input) == PassesGate(sys.status, input);
      MissingScalerIff(sys.status.targets, input.targets);
      AllAnsweredIff(sys.status.targets, input.targets);
    }
  }

  /**
   Ready masks failures: every reconcile that finds its target and completes the exhaustion check ends
   with Ready on, whatever failed on the way. If something inside turned it off, it is on as of the end
   of the reconcile; otherwise it is as one write of it leaves it.
   */
  lemma {:induction false} ReadyMasksFailures(cfg: Config, sys: System, input: Input)
    requires FindsTarget(input)
    ensures var before, after := C.Get(sys.status.conditions, C.Ready),
                                 C.Get(StepOf(cfg, sys, input).status.conditions, C.Ready);
            && after.kind == C.Ready && after.status == C.True && after.reason == C.NoReason
            && after == if TurnsReadyOff(cfg, sys, input)
                        then C.Condition(C.Ready, C.True, C.NoReason, input.clock.ready)
                        else C.Rewritten(before, C.Ready, C.True, C.NoReason, input.clock.ready)
  {
    var scale, history := input.scale.value, Buffers(cfg, sys, input);
    var observed := Observed(sys.status, input, scale);
    var s := if input.spec.minReplicas.None? then Static(observed, history, input, scale)
             else Autoscaled(observed, history, cfg, input, scale);
    InsideReady(cfg, sys, input);
    C.GetKind(sys.status.conditions, C.Ready);
    C.GetKind(s.status.conditions, C.Ready);
    C.GetAfterSet(s.status.conditions, C.Ready, C.True, C.NoReason, input.clock.ready, C.Ready);
  }

  /**
   In every reconcile Ready's transition time moves only on a net change, except exactly when something
   inside turns Ready off while the stored entry is on, without a reason, as of another instant.
   */
  lemma {:induction false} ReadyTransitionsIff(cfg: Config, sys: System, input: Input)
    ensures var before, after := C.Get(sys.status.conditions, C.Ready),
                                 C.Get(StepOf(cfg, sys, input).status.conditions, C.Ready);
            MovesOnNetChange(before, after) <==>
              !(TurnsReadyOff(cfg, sys, input) && before.status == C.True && before.reason == C.NoReason
                && before.lastTransition != input.clock.ready)
  {
    C.GetKind(sys.status.conditions, C.Ready);
    if FindsTarget(input) {
      ReadyMasksFailures(cfg, sys, input);
    } else if !input.deleting && input.scale.None? {
      C.GetAfterSet(sys.status.conditions, C.Ready, C.False, C.FailedToGetScaleTarget, input.clock.exhaust, C.Ready);
    }
  }
}
