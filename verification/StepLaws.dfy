/** What one reconcile does to each field of the status, in terms of what it reads. */
module StepLaws {
  import opened Common
  import opened Controller
  import opened ControllerRuns
  import opened PanicRuns
  import opened ScaleRuns
  import opened TransitionTimes
  import C = Conditions
  import T = TargetStatuses
  import R = Replicator

  // ---------------------------------------------------------------- the scale action

  /** The replicas a reconcile settles on: the decided ones, or the fixed ones of the static flow. */
  ghost function Wanted(input: Input, s: Step): Option<int> {
    if !FindsTarget(input) then None
    else if input.spec.minReplicas.None? then Some(input.spec.maxReplicas)
    else if s.decision.Some? then Some(s.decision.value.replicas)
    else None
  }

  /** The scale has other replicas, and writing these succeeds or is left out in a dry run. */
  predicate Acts(input: Input, wanted: int) {
    input.scale.Some? && input.scale.value.specReplicas != wanted && (input.dryRun != Some("false") || input.updateOk)
  }

  /** The effects of settling on `wanted`: only an action moves the scale time, only without dry run it writes. */
  ghost predicate ScalesTo(before: Status, input: Input, wanted: int, s: Step) {
    && s.status.desiredReplicas == wanted
    && s.write == (if Acts(input, wanted) && input.dryRun == Some("false") then Some(wanted) else None)
    && s.status.lastScaleTime == (if Acts(input, wanted) then Some(input.clock.scaled) else before.lastScaleTime)
  }

  ghost predicate ScalesNothing(before: Status, s: Step) {
    && s.status.desiredReplicas == before.desiredReplicas
    && s.write == None
    && s.status.lastScaleTime == before.lastScaleTime
  }

  lemma {:induction false} DecidedScales(status: Status, history: R.History, cfg: Config, input: Input,
                                         outputs: map<string, int>)
    requires input.scale.Some?
    ensures var s := Decided(status, history, cfg, input, input.scale.value.specReplicas, outputs);
            s.decision.Some? && ScalesTo(status, input, s.decision.value.replicas, s)
            && s.status.currentReplicas == status.currentReplicas
  {
  }

  lemma {:induction false} IdleScalesNothing(status: Status, history: R.History, cfg: Config, input: Input,
                                             scale: Scale)
    requires Autoscaled(status, history, cfg, input, scale).decision.None?
    ensures ScalesNothing(status, Autoscaled(status, history, cfg, input, scale))
    ensures Autoscaled(status, history, cfg, input, scale).status.currentReplicas == status.currentReplicas
  {
  }

  /**
   The scale action: a reconcile that settles on replicas records them; where the scale has others it
   writes them, unless in dry run, and records the instant, unless the write fails. Every other
   reconcile, and every other way, leaves all three alone.
   */
  lemma {:induction false} ScaleLaw(cfg: Config, sys: System, input: Input)
    ensures var s := StepOf(cfg, sys, input);
            match Wanted(input, s)
            case None => ScalesNothing(sys.status, s)
            case Some(wanted) => ScalesTo(sys.status, input, wanted, s)
    ensures StepOf(cfg, sys, input).status.currentReplicas
            == if FindsTarget(input) then input.scale.value.statusReplicas else sys.status.currentReplicas
  {
    if FindsTarget(input) {
      var observed := Observed(sys.status, input, input.scale.value);
      ReconciledFlow(cfg, sys, input);
      if StepOf(cfg, sys, input).decision.Some? {
        var (entering, outputs) := Entering(sys.status, input);
        DecisionPath(sys.status, Buffers(cfg, sys, input), cfg, input);
        DecidedScales(entering, Buffers(cfg, sys, input), cfg, input, outputs);
      } else if input.spec.minReplicas.Some? {
        IdleScalesNothing(observed, Buffers(cfg, sys, input), cfg, input, input.scale.value);
      }
    }
  }

  // ---------------------------------------------------------------- panic mode and the next reconcile

  /** A decision this large, next to the scale, is a reason for panic mode. */
  predicate AsksForPanic(input: Input, replicas: int)
    requires input.scale.Some?
  {
    C.ShouldEnterPanicMode(replicas, input.scale.value.specReplicas, input.spec.strategy)
  }

  /** The panic entry after a decision whose write did not fail. */
  ghost function PanicEntry(before: C.Condition, input: Input, replicas: int): C.Condition
    requires input.scale.Some?
  {
    if AsksForPanic(input, replicas) then C.Rewritten(before, C.PanicMode, C.True, C.NoReason, input.clock.panicSet)
    else if Live(before, input.spec.strategy, input.clock.panicCheck) then before
    else C.Rewritten(before, C.PanicMode, C.False, C.NoReason, input.clock.panicSet)
  }

  lemma {:induction false} PanicWrite(conditions: C.ConditionList, input: Input, replicas: int)
    requires input.scale.Some?
    ensures C.Get(PanicConditions(conditions, input, input.scale.value.specReplicas, replicas), C.PanicMode)
            == PanicEntry(C.Get(conditions, C.PanicMode), input, replicas)
  {
    C.GetAfterSet(conditions, C.PanicMode, C.True, C.NoReason, input.clock.panicSet, C.PanicMode);
    C.GetAfterSet(conditions, C.PanicMode, C.False, C.NoReason, input.clock.panicSet, C.PanicMode);
  }

  lemma {:induction false} DecidedPanic(status: Status, history: R.History, cfg: Config, input: Input,
                                        outputs: map<string, int>)
    requires input.scale.Some?
    ensures var s := Decided(status, history, cfg, input, input.scale.value.specReplicas, outputs);
            var replicas := s.decision.value.replicas;
            && Panic(s.status) == (if WriteFails(input, replicas) then Panic(status)
                                   else PanicEntry(Panic(status), input, replicas))
            && s.requeue == (if WriteFails(input, replicas) then AfterError
                             else if AsksForPanic(input, replicas) then AfterPanic else AfterNormal)
  {
    var spec := input.scale.value.specReplicas;
    var s := Decided(status, history, cfg, input, spec, outputs);
    var answer, replicas := R.Answer(history, cfg.window, s.decision.value.call), s.decision.value.replicas;
    var bounded := status.(conditions := BoundConditions(status.conditions, cfg, input, answer));
    BoundFrame(status.conditions, cfg, input, answer, C.PanicMode);
    ScaledFrame(bounded, input, spec, replicas, C.PanicMode);
    PanicWrite(ScaledTo(bounded, input, spec, replicas).status.conditions, input, replicas);
  }

  lemma {:induction false} DecisionPanic(cfg: Config, sys: System, input: Input)
    requires StepOf(cfg, sys, input).decision.Some?
    ensures input.scale.Some?
    ensures var s := StepOf(cfg, sys, input);
            var replicas := s.decision.value.replicas;
            && Panic(s.status) == (if WriteFails(input, replicas) then Panic(sys.status)
                                   else PanicEntry(Panic(sys.status), input, replicas))
            && s.requeue == (if WriteFails(input, replicas) then AfterError
                             else if AsksForPanic(input, replicas) then AfterPanic else AfterNormal)
  {
    var (entering, outputs) := Entering(sys.status, input);
    var history := Buffers(cfg, sys, input);
    var s := Decided(entering, history, cfg, input, input.scale.value.specReplicas, outputs);
    DecisionPath(sys.status, history, cfg, input);
    DecidedPanic(entering, history, cfg, input, outputs);
    ExhaustFrame(sys.status, input, input.scale.value, C.PanicMode);
    ReadyFrame(s.status.conditions, C.PanicMode);
  }

  lemma {:induction false} IdlePanic(cfg: Config, sys: System, input: Input)
    requires StepOf(cfg, sys, input).decision.None?
    ensures Panic(StepOf(cfg, sys, input).status) == Panic(sys.status)
  {
    ReadyFrame(sys.status.conditions, C.PanicMode);
    if FindsTarget(input) {
      var scale, history := input.scale.value, Buffers(cfg, sys, input);
      var observed := Observed(sys.status, input, scale);
      ReconciledFlow(cfg, sys, input);
      ExhaustFrame(sys.status, input, scale, C.PanicMode);
      if input.spec.minReplicas.None? {
        ScaledFrame(observed, input, scale.specReplicas, input.spec.maxReplicas, C.PanicMode);
        ReadyFrame(Static(observed, history, input, scale).status.conditions, C.PanicMode);
      } else {
        AutoscaledUndecided(observed, history, cfg, input, scale, C.PanicMode);
        ReadyFrame(Autoscaled(observed, history, cfg, input, scale).status.conditions, C.PanicMode);
      }
    }
  }

  /**
   Panic mode: a decision that is carried out turns it on if it asks for it, leaves it on while its window
   lasts, and otherwise writes it off. A failed write, and a reconcile without a decision, leave it alone.
   */
  lemma {:induction false} PanicLaw(cfg: Config, sys: System, input: Input)
    ensures var s := StepOf(cfg, sys, input);
            match s.decision
            case None => Panic(s.status) == Panic(sys.status)
            case Some(d) =>
              && input.scale.Some?
              && Panic(s.status) == (if WriteFails(input, d.replicas) then Panic(sys.status)
                                     else PanicEntry(Panic(sys.status), input, d.replicas))
  {
    if StepOf(cfg, sys, input).decision.Some? {
      DecisionPanic(cfg, sys, input);
    } else {
      IdlePanic(cfg, sys, input);
    }
  }

  /** When to come back without a decision, from the first thing that stands in its way. */
  ghost function IdleRequeue(status: Status, input: Input): Requeue {
    if input.deleting then AfterNormal
    else if input.scale.None? then NotRequeue
    else if input.exhaust == CheckFailed then AfterError
    else if input.spec.minReplicas.None? then
      if WriteFails(input, input.spec.maxReplicas) then AfterError else NotRequeue
    else if !input.scale.value.selectorParses then AfterError
    else if !PassesGate(status, input) then AfterNormal
    else if AllAnswered(input.targets) then NotRequeue
    else if MissesScalerFirst(input.targets) then AfterNormal
    else AfterError
  }

  lemma {:induction false} IdleFlowRequeue(cfg: Config, sys: System, input: Input)
    requires FindsTarget(input) && input.spec.minReplicas.Some?
    requires StepOf(cfg, sys, input).decision.None?
    ensures StepOf(cfg, sys, input).requeue == IdleRequeue(sys.status, input)
  {
    var scale := input.scale.value;
    var observed := Observed(sys.status, input, scale);
    ReconciledFlow(cfg, sys, input);
    ObservedGate(sys.status, input);
    AllAnsweredIff(observed.targets, input.targets);
    MissingScalerIff(observed.targets, input.targets);
    AutoscaledIdleRequeue(observed, Buffers(cfg, sys, input), cfg, input, scale);
  }

  lemma {:induction false} AutoscaledIdleRequeue(status: Status, history: R.History, cfg: Config, input: Input,
                                                 scale: Scale)
    requires Autoscaled(status, history, cfg, input, scale).decision.None?
    ensures var stop := Collect(status.targets, input.targets).stop;
            Autoscaled(status, history, cfg, input, scale).requeue ==
            if !scale.selectorParses then AfterError
            else if !PassesGate(status, input) then AfterNormal
            else if stop.None? then NotRequeue
            else if stop.value.ScalerMissing? then AfterNormal
            else AfterError
  {
  }

  /** When the next reconcile is due: at the error rate after a failure, sooner in panic mode, or not at all. */
  lemma {:induction false} RequeueLaw(cfg: Config, sys: System, input: Input)
    ensures var s := StepOf(cfg, sys, input);
            match s.decision
            case None => s.requeue == IdleRequeue(sys.status, input)
            case Some(d) =>
              && input.scale.Some?
              && s.requeue == (if WriteFails(input, d.replicas) then AfterError
                               else if AsksForPanic(input, d.replicas) then AfterPanic
                               else AfterNormal)
  {
    if StepOf(cfg, sys, input).decision.Some? {
      DecisionPanic(cfg, sys, input);
    } else if FindsTarget(input) && input.spec.minReplicas.Some? {
      IdleFlowRequeue(cfg, sys, input);
    }
  }

  // ---------------------------------------------------------------- targets

  function UpdatesOf(outcome: ScalerOutcome): seq<T.TargetStatus> {
    match outcome
    case ScalerFailed(updates) => updates
    case Answered(_, _, updates) => updates
    case _ => []
  }

  /** What the scalers of these targets write to the statuses, in order. */
  function Updates(targets: seq<Target>): seq<T.TargetStatus> {
    if targets == [] then [] else UpdatesOf(targets[0].outcome) + Updates(targets[1..])
  }

  /** The names they manage, in order. */
  function Managed(targets: seq<Target>): seq<string>
    requires forall i :: 0 <= i < |targets| ==> targets[i].outcome.Answered?
  {
    if targets == [] then [] else targets[0].outcome.managed + Managed(targets[1..])
  }

  /** The last target of each metric name gives its answer. */
  ghost predicate OutputsOf(outputs: map<string, int>, targets: seq<Target>) {
    && (forall metric :: metric in outputs <==> exists i :: 0 <= i < |targets| && targets[i].metric == metric)
    && (forall i :: 0 <= i < |targets| && (forall j :: i < j < |targets| ==> targets[j].metric != targets[i].metric) ==>
          targets[i].outcome.Answered? && targets[i].metric in outputs
          && outputs[targets[i].metric] == targets[i].outcome.desired)
  }

  ghost predicate FirstFailure(targets: seq<Target>, k: nat) {
    k < |targets| && !targets[k].outcome.Answered? && forall i :: 0 <= i < k ==> targets[i].outcome.Answered?
  }

  lemma {:induction false} UpdatesMore(front: seq<Target>, last: Target)
    ensures Updates(front + [last]) == Updates(front) + UpdatesOf(last.outcome)
  {
    var targets := front + [last];
    if front == [] {
      assert targets[1..] == [] && Updates([]) == [];
    } else {
      assert targets[1..] == front[1..] + [last];
      UpdatesMore(front[1..], last);
    }
  }

  lemma {:induction false} ManagedMore(front: seq<Target>, last: Target)
    requires AllAnswered(front) && last.outcome.Answered?
    ensures Managed(front + [last]) == Managed(front) + last.outcome.managed
  {
    var targets := front + [last];
    if front == [] {
      assert targets[1..] == [] && Managed([]) == [];
    } else {
      assert targets[1..] == front[1..] + [last];
      ManagedMore(front[1..], last);
    }
  }

  /** What one more target makes of what was collected before it. */
  ghost predicate OneMoreCollected(c: Collected, target: Target, more: Collected) {
    && more.targets == T.SetAll(c.targets, UpdatesOf(target.outcome))
    && (target.outcome.Answered? <==> more.stop.None?)
    && (target.outcome.Answered? ==> more.managed == c.managed + target.outcome.managed
                                     && more.outputs == c.outputs[target.metric := target.outcome.desired])
  }

  lemma {:induction false} CollectLast(statuses: T.Targets, targets: seq<Target>)
    requires targets != [] && Collect(statuses, targets[..|targets| - 1]).stop.None?
    ensures OneMoreCollected(Collect(statuses, targets[..|targets| - 1]), targets[|targets| - 1],
                             Collect(statuses, targets))
  {
  }

  lemma {:induction false} CollectMore(statuses: T.Targets, front: seq<Target>, last: Target)
    requires Collect(statuses, front).stop.None?
    ensures OneMoreCollected(Collect(statuses, front), last, Collect(statuses, front + [last]))
  {
    var targets := front + [last];
    assert targets[..|targets| - 1] == front && targets[|targets| - 1] == last;
    CollectLast(statuses, targets);
  }

  /** The target loop when every scaler answers. */
  lemma {:induction false} CollectAnswered(statuses: T.Targets, targets: seq<Target>)
    requires AllAnswered(targets)
    ensures var c := Collect(statuses, targets);
            && c.stop.None? && c.targets == T.SetAll(statuses, Updates(targets)) && c.managed == Managed(targets)
            && OutputsOf(c.outputs, targets)
  {
    if targets != [] {
      var front, last := targets[..|targets| - 1], targets[|targets| - 1];
      assert targets == front + [last];
      assert forall i :: 0 <= i < |front| ==> front[i] == targets[i];
      CollectAnswered(statuses, front);
      CollectMore(statuses, front, last);
      UpdatesMore(front, last);
      ManagedMore(front, last);
      T.SetAllMore(statuses, Updates(front), UpdatesOf(last.outcome));
      OneMoreOutput(Collect(statuses, front).outputs, front, last);
    }
  }

  lemma {:induction false} OneMoreOutput(outputs: map<string, int>, front: seq<Target>, last: Target)
    requires OutputsOf(outputs, front) && last.outcome.Answered?
    ensures OutputsOf(outputs[last.metric := last.outcome.desired], front + [last])
  {
    var targets, after := front + [last], outputs[last.metric := last.outcome.desired];
    forall metric ensures metric in after <==> exists i :: 0 <= i < |targets| && targets[i].metric == metric {
      if metric == last.metric {
        assert targets[|front|].metric == metric;
      } else if i :| 0 <= i < |front| && front[i].metric == metric {
        assert targets[i].metric == metric;
      }
    }
    forall i | 0 <= i < |targets| && (forall j :: i < j < |targets| ==> targets[j].metric != targets[i].metric)
      ensures targets[i].outcome.Answered? && targets[i].metric in after
              && after[targets[i].metric] == targets[i].outcome.desired
    {
      if i < |front| {
        assert targets[|front|].metric != targets[i].metric && front[i] == targets[i];
        assert forall j :: i < j < |front| ==> front[j].metric == targets[j].metric != front[i].metric;
      }
    }
  }

  lemma {:induction false} StopsAfter(statuses: T.Targets, front: seq<Target>, last: Target)
    requires AllAnswered(front) && !last.outcome.Answered?
    ensures Collect(statuses, front + [last]).stop.Some?
    ensures Collect(statuses, front + [last]).targets == T.SetAll(statuses, Updates(front + [last]))
  {
    CollectAnswered(statuses, front);
    CollectMore(statuses, front, last);
    UpdatesMore(front, last);
    T.SetAllMore(statuses, Updates(front), UpdatesOf(last.outcome));
  }

  /** And when one does not: its writes, and those before it, are kept, and the loop ends there. */
  lemma {:induction false} CollectFailed(statuses: T.Targets, targets: seq<Target>, k: nat)
    requires FirstFailure(targets, k)
    ensures Collect(statuses, targets).stop.Some?
    ensures Collect(statuses, targets).targets == T.SetAll(statuses, Updates(targets[..k + 1]))
  {
    var front, last := targets[..k], targets[k];
    assert targets[..k + 1] == front + [last];
    StopsAfter(statuses, front, last);
    StopsThere(statuses, targets, k + 1);
  }

  lemma {:induction false} FlowTargets(cfg: Config, sys: System, input: Input)
    ensures var after, c := StepOf(cfg, sys, input).status.targets, Collect(sys.status.targets, input.targets);
            after == if !ReachesTargets(sys.status, input) then sys.status.targets
                     else if c.stop.None? then T.Purge(c.managed, c.targets)
                     else c.targets
  {
    if FindsTarget(input) {
      var observed := Observed(sys.status, input, input.scale.value);
      ReconciledFlow(cfg, sys, input);
      ObservedGate(sys.status, input);
      if input.spec.minReplicas.Some? {
        AutoscaledTargets(observed, Buffers(cfg, sys, input), cfg, input, input.scale.value);
      }
    }
  }

  lemma {:induction false} AutoscaledTargets(status: Status, history: R.History, cfg: Config, input: Input,
                                             scale: Scale)
    ensures var after, c := Autoscaled(status, history, cfg, input, scale).status.targets,
                            Collect(status.targets, input.targets);
            after == if !scale.selectorParses || !PassesGate(status, input) then status.targets
                     else if c.stop.None? then T.Purge(c.managed, c.targets)
                     else c.targets
  {
    var c := Collect(status.targets, input.targets);
    DecidedTargets(status.(targets := T.Purge(c.managed, c.targets)), history, cfg, input, scale.specReplicas,
                   c.outputs);
  }

  lemma {:induction false} DecidedTargets(status: Status, history: R.History, cfg: Config, input: Input,
                                          specReplicas: int, outputs: map<string, int>)
    ensures Decided(status, history, cfg, input, specReplicas, outputs).status.targets == status.targets
  {
  }

  /**
   The target statuses: a reconcile that comes to its targets keeps what the scalers wrote, up to the first
   that fails. If all answer, the statuses that none of them manages are purged.
   */
  lemma {:induction false} TargetsLaw(cfg: Config, sys: System, input: Input)
    ensures var before, after := sys.status.targets, StepOf(cfg, sys, input).status.targets;
            && (!ReachesTargets(sys.status, input) ==> after == before)
            && (ReachesTargets(sys.status, input) && AllAnswered(input.targets) ==>
                  after == T.Purge(Managed(input.targets), T.SetAll(before, Updates(input.targets))))
            && (forall k :: ReachesTargets(sys.status, input) && FirstFailure(input.targets, k) ==>
                  after == T.SetAll(before, Updates(input.targets[..k + 1])))
  {
    FlowTargets(cfg, sys, input);
    if AllAnswered(input.targets) {
      CollectAnswered(sys.status.targets, input.targets);
    }
    forall k | FirstFailure(input.targets, k)
      ensures Collect(sys.status.targets, input.targets).stop.Some?
      ensures Collect(sys.status.targets, input.targets).targets
              == T.SetAll(sys.status.targets, Updates(input.targets[..k + 1]))
    {
      CollectFailed(sys.status.targets, input.targets, k);
    }
  }

  /** So after a decision a name is found if a target manages it: as its last scaler wrote it, or as before. */
  lemma {:induction false} ManagedStatusSurvives(cfg: Config, sys: System, input: Input, name: string)
    requires StepOf(cfg, sys, input).decision.Some?
    ensures AllAnswered(input.targets)
    ensures var found, updates := T.Lookup(StepOf(cfg, sys, input).status.targets, name), Updates(input.targets);
            if name !in Managed(input.targets) then found == None
            else
              || (exists k :: 0 <= k < |updates| && updates[k].target == name && found == Some(updates[k])
                              && forall j :: k < j < |updates| ==> updates[j].target != name)
              || (found == T.Lookup(sys.status.targets, name)
                  && forall k :: 0 <= k < |updates| ==> updates[k].target != name)
  {
    DecidesExactlyWhen(cfg, sys, input);
    TargetsLaw(cfg, sys, input);
    T.LookupAfterPurge(Managed(input.targets), T.SetAll(sys.status.targets, Updates(input.targets)), name);
    T.LookupAfterSetAll(sys.status.targets, Updates(input.targets), name);
  }

  /**
   The replicator is asked by a decision, once, under the autoscaler's key, with the scale's replicas and
   the answer of the last target of each metric; without a decision it is not asked at all.
   */
  lemma {:induction false} CallLaw(cfg: Config, sys: System, input: Input)
    ensures var s, c := StepOf(cfg, sys, input), input.clock;
            match s.decision
            case None => s.history == Buffers(cfg, sys, input)
            case Some(d) =>
              && s.history == R.Apply(Buffers(cfg, sys, input), cfg.window, d.call)
              && input.scale.Some? && OutputsOf(d.call.outputs, input.targets)
              && d.call == R.Call(cfg.name + "/" + cfg.namespace, input.scale.value.specReplicas, d.call.outputs,
                                  c.seed, c.replicator, c.stamp)
  {
    HistoryStep(cfg, sys, input);
    DecisionIsShaped(cfg, sys, input);
    if StepOf(cfg, sys, input).decision.Some? {
      DecidesExactlyWhen(cfg, sys, input);
      CollectAnswered(sys.status.targets, input.targets);
    }
  }

  // ---------------------------------------------------------------- Exhausted and Ready

  /** Exhausted tells what the check found; Ready that the target was not found, or else, in the end, nothing. */
  lemma {:induction false} ExhaustedAndReadyLaw(cfg: Config, sys: System, input: Input)
    ensures var before, after := sys.status.conditions, StepOf(cfg, sys, input).status.conditions;
            && C.Get(after, C.Exhausted)
               == (if !FindsTarget(input) then C.Get(before, C.Exhausted)
                   else C.Rewritten(C.Get(before, C.Exhausted), C.Exhausted,
                                    if input.exhaust == OnPending then C.True else C.False,
                                    if input.exhaust == OnPending then C.ExhaustedOnPending else C.NoReason,
                                    input.clock.exhaust))
            && (FindsTarget(input) ==>
                  C.Get(after, C.Ready).status == C.True && C.Get(after, C.Ready).reason == C.NoReason)
            && (!FindsTarget(input) ==>
                  C.Get(after, C.Ready)
                  == if input.deleting || input.scale.Some? then C.Get(before, C.Ready)
                     else C.Rewritten(C.Get(before, C.Ready), C.Ready, C.False, C.FailedToGetScaleTarget,
                                      input.clock.exhaust))
  {
    var before, pending := sys.status.conditions, input.exhaust == OnPending;
    ReadyFrame(before, C.Exhausted);
    C.GetAfterSet(before, C.Ready, C.False, C.FailedToGetScaleTarget, input.clock.exhaust, C.Ready);
    if FindsTarget(input) {
      var scale, history := input.scale.value, Buffers(cfg, sys, input);
      var observed := Observed(sys.status, input, scale);
      ReadyMasksFailures(cfg, sys, input);
      ReconciledFlow(cfg, sys, input);
      C.GetAfterSet(before, C.Exhausted, if pending then C.True else C.False,
                    if pending then C.ExhaustedOnPending else C.NoReason, input.clock.exhaust, C.Exhausted);
      ScaledFrame(observed, input, scale.specReplicas, input.spec.maxReplicas, C.Exhausted);
      AutoscaledKeepsExhausted(observed, history, cfg, input, scale);
      var s := if input.spec.minReplicas.None? then Static(observed, history, input, scale)
               else Autoscaled(observed, history, cfg, input, scale);
      ReadyFrame(s.status.conditions, C.Exhausted);
    }
  }
}
