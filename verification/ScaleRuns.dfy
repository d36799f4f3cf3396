/** Scale actions over whole runs: how often they happen, and how far down they may go. */
module ScaleRuns {
  import opened Common
  import opened Bounds
  import opened Controller
  import opened ControllerRuns
  import opened PanicRuns
  import C = Conditions
  import T = TargetStatuses
  import P = ReplicaPatches
  import R = Replicator

  // ---------------------------------------------------------------- rate limit

  lemma {:induction false} ExhaustFrame(status: Status, input: Input, scale: Scale, kind: C.ConditionType)
    requires kind != C.Exhausted
    ensures C.Get(Observed(status, input, scale).conditions, kind) == C.Get(status.conditions, kind)
  {
    var pending := input.exhaust == OnPending;
    C.GetAfterSet(status.conditions, C.Exhausted, if pending then C.True else C.False,
                  if pending then C.ExhaustedOnPending else C.NoReason, input.clock.exhaust, kind);
  }

  /** A reconcile leaves the scale time, or sets it to its own instant after passing the gate. */
  ghost predicate ScaleTimeMove(status: Status, input: Input, after: Option<Time>) {
    || after == status.lastScaleTime
    || (after == Some(input.clock.scaled) && PassesGate(status, input))
  }

  lemma {:induction false} DecidedScaleTime(status: Status, history: R.History, cfg: Config, input: Input,
                                            specReplicas: int,
                                            outputs: map<string, int>)
    ensures var after := Decided(status, history, cfg, input, specReplicas, outputs).status.lastScaleTime;
            after == status.lastScaleTime || after == Some(input.clock.scaled)
  {
  }

  lemma {:induction false} AutoscaledScaleTime(status: Status, history: R.History, cfg: Config, input: Input,
                                               scale: Scale)
    ensures ScaleTimeMove(status, input, Autoscaled(status, history, cfg, input, scale).status.lastScaleTime)
  {
    var c := Collect(status.targets, input.targets);
    if c.stop.None? && SelectedReplicator(input.spec) == DEFAULT_REPLICATOR {
      DecidedScaleTime(status.(targets := T.Purge(c.managed, c.targets)), history, cfg, input, scale.specReplicas,
                       c.outputs);
    }
  }

  lemma {:induction false} ReconciledScaleTime(cfg: Config, sys: System, input: Input)
    requires input.spec.minReplicas.Some?
    ensures ScaleTimeMove(sys.status, input, StepOf(cfg, sys, input).status.lastScaleTime)
  {
    if input.scale.Some? {
      var observed := Observed(sys.status, input, input.scale.value);
      AutoscaledScaleTime(observed, Buffers(cfg, sys, input), cfg, input, input.scale.value);
      ExhaustFrame(sys.status, input, input.scale.value, C.PanicMode);
    }
  }

  ghost predicate WholeScaleTime(t: Option<Time>) {
    t.Some? ==> t.value % SECOND == 0
  }

  /** A newly recorded scale time is a cool-down after the recorded one, or panic mode let it pass early. */
  lemma {:induction false} NextScaleTime(cfg: Config, sys: System, input: Input)
    requires input.spec.minReplicas.Some? && input.clock.Forward() && WholeScaleTime(sys.status.lastScaleTime)
    ensures var before, after := sys.status.lastScaleTime, Next(cfg, sys, input).status.lastScaleTime;
            && WholeScaleTime(after)
            && (after != before ==> after.Some?)
            && (after != before && before.Some? && !PassesEarly(sys.status, input) ==>
                  after.value >= before.value + 30 * SECOND)
  {
    ReconciledScaleTime(cfg, sys, input);
    var before := sys.status.lastScaleTime;
    if before.Some? && input.clock.sinceScale - before.value >= 30 * SECOND {
      WholeSecondsMonotone(before.value, 30, input.clock.scaled);
    }
  }

  /** The values a run gives to the recorded scale time, in order. */
  ghost function ScaleTimes(cfg: Config, sys: System, inputs: seq<Input>): seq<Time> {
    if inputs == [] then []
    else
      var front := inputs[..|inputs| - 1];
      var before, after := Run(cfg, sys, front).status.lastScaleTime, Run(cfg, sys, inputs).status.lastScaleTime;
      ScaleTimes(cfg, sys, front) + if after != before && after.Some? then [after.value] else []
  }

  /** Every reconcile of the run is in the autoscaling flow, without panic mode. */
  ghost predicate PlainAutoscaling(inputs: seq<Input>) {
    forall i :: 0 <= i < |inputs| ==>
      && inputs[i].spec.minReplicas.Some?
      && !C.IsPanicModeConfigured(inputs[i].spec.strategy)
      && inputs[i].clock.Forward()
  }

  ghost predicate SpacedBy(ts: seq<Time>, d: int) {
    forall i, j :: 0 <= i < j < |ts| ==> ts[i] + d <= ts[j]
  }

  ghost predicate EndsAt(ts: seq<Time>, last: Option<Time>, start: Option<Time>) {
    if ts == [] then last == start else last == Some(ts[|ts| - 1])
  }

  lemma SpacedMore(ts: seq<Time>, d: int, t: Time)
    requires SpacedBy(ts, d) && d >= 0 && (ts != [] ==> ts[|ts| - 1] + d <= t)
    ensures SpacedBy(ts + [t], d)
  {
    forall i, j | 0 <= i < j < |ts| + 1 ensures (ts + [t])[i] + d <= (ts + [t])[j] {
      if j == |ts| && i < |ts| - 1 {
        assert ts[i] + d <= ts[|ts| - 1];
      }
    }
  }

  lemma SpacedStep(ts: seq<Time>, d: int, start: Option<Time>, last: Option<Time>, after: Option<Time>)
    requires SpacedFrom(ts, d, start, last) && d >= 0
    requires after != last ==> after.Some? && (last.Some? ==> after.value >= last.value + d)
    ensures SpacedFrom(ts + if after != last && after.Some? then [after.value] else [], d, start, after)
  {
    if after != last {
      SpacedMore(ts, d, after.value);
    }
  }

  /** The times of a run, from the recorded time it started with to the one it ends with. */
  ghost predicate SpacedFrom(ts: seq<Time>, d: int, start: Option<Time>, last: Option<Time>) {
    && SpacedBy(ts, d) && EndsAt(ts, last, start)
    && (start.Some? && ts != [] ==> ts[0] >= start.value + d)
  }

  /**
   Rate limit: over every run in the autoscaling flow without panic mode, any two values of the
   recorded scale time are at least the cool-down apart, the value the run started from included.
   */
  lemma {:induction false} RateLimit(cfg: Config, sys: System, inputs: seq<Input>)
    requires PlainAutoscaling(inputs) && WholeScaleTime(sys.status.lastScaleTime)
    ensures SpacedFrom(ScaleTimes(cfg, sys, inputs), 30 * SECOND, sys.status.lastScaleTime,
                       Run(cfg, sys, inputs).status.lastScaleTime)
    ensures WholeScaleTime(Run(cfg, sys, inputs).status.lastScaleTime)
  {
    if inputs != [] {
      var front, input := inputs[..|inputs| - 1], inputs[|inputs| - 1];
      RateLimit(cfg, sys, front);
      var before := Run(cfg, sys, front);
      NextScaleTime(cfg, before, input);
      NeverEarly(before.status, input);
      var after := Next(cfg, before, input).status.lastScaleTime;
      SpacedStep(ScaleTimes(cfg, sys, front), 30 * SECOND, sys.status.lastScaleTime, before.status.lastScaleTime,
                 after);
    }
  }

  lemma NeverEarly(status: Status, input: Input)
    requires !C.IsPanicModeConfigured(input.spec.strategy)
    ensures !PassesEarly(status, input)
  {
  }

  function Inside(ts: seq<Time>, lo: Time, hi: Time): (r: seq<Time>)
    ensures forall i :: 0 <= i < |r| ==> lo <= r[i] <= hi
    ensures forall i :: 0 <= i < |r| ==> r[i] in ts
  {
    if ts == [] then []
    else
      var r, t := Inside(ts[..|ts| - 1], lo, hi), ts[|ts| - 1];
      if lo <= t <= hi then r + [t] else r
  }

  lemma {:induction false} InsideSpaced(ts: seq<Time>, lo: Time, hi: Time, d: int)
    requires SpacedBy(ts, d) && d >= 0
    ensures SpacedBy(Inside(ts, lo, hi), d)
  {
    if ts != [] {
      var front, t := ts[..|ts| - 1], ts[|ts| - 1];
      var r := Inside(front, lo, hi);
      InsideSpaced(front, lo, hi, d);
      if r != [] {
        var i :| 0 <= i < |front| && front[i] == r[|r| - 1];
        assert ts[i] + d <= ts[|ts| - 1];
      }
      SpacedMore(r, d, if r == [] then t else Common.Max(t, r[|r| - 1] + d));
    }
  }

  /** So an interval of length L holds at most L / 30s + 1 recorded scale actions. */
  lemma {:induction false} ScaleActionsInInterval(cfg: Config, sys: System, inputs: seq<Input>, lo: Time, hi: Time)
    requires PlainAutoscaling(inputs) && WholeScaleTime(sys.status.lastScaleTime) && lo <= hi
    ensures |Inside(ScaleTimes(cfg, sys, inputs), lo, hi)| <= (hi - lo) / (30 * SECOND) + 1
  {
    var ts := Inside(ScaleTimes(cfg, sys, inputs), lo, hi);
    RateLimit(cfg, sys, inputs);
    InsideSpaced(ScaleTimes(cfg, sys, inputs), lo, hi, 30 * SECOND);
    assert PairwiseApart(ts, 30 * SECOND);
    SpacedCount(ts, lo, hi, 30 * SECOND);
  }

  // ---------------------------------------------------------------- scale times in panic mode

  ghost predicate AllAutoscaling(inputs: seq<Input>) {
    forall i :: 0 <= i < |inputs| ==> inputs[i].spec.minReplicas.Some?
  }

  /** A recorded scale time is of whole seconds and not ahead of the clock. */
  ghost predicate RecordedBy(t: Option<Time>, now: Time) {
    t.Some? ==> t.value % SECOND == 0 && t.value <= now
  }

  /** A recorded scale time never goes back across a reconcile. */
  lemma {:induction false} NextScaleTimeForward(cfg: Config, sys: System, input: Input)
    requires input.spec.minReplicas.Some? && input.clock.Forward()
    requires RecordedBy(sys.status.lastScaleTime, input.clock.purge)
    ensures var before, after := sys.status.lastScaleTime, Next(cfg, sys, input).status.lastScaleTime;
            && RecordedBy(after, input.clock.ready)
            && (before.Some? ==> after.Some? && before.value <= after.value)
  {
    ReconciledScaleTime(cfg, sys, input);
    if sys.status.lastScaleTime.Some? {
      WholeSecondsMonotone(sys.status.lastScaleTime.value, 0, input.clock.scaled);
    }
  }

  lemma {:induction false} ScaleTimesForward(cfg: Config, sys: System, inputs: seq<Input>, m: nat)
    requires ForwardRun(inputs) && AllAutoscaling(inputs) && m <= |inputs|
    requires inputs != [] ==> RecordedBy(sys.status.lastScaleTime, inputs[0].clock.purge)
    ensures var before, after := Run(cfg, sys, inputs[..m]).status.lastScaleTime,
                                 Run(cfg, sys, inputs).status.lastScaleTime;
            before.Some? ==> after.Some? && before.value <= after.value
    ensures inputs != [] ==> RecordedBy(Run(cfg, sys, inputs).status.lastScaleTime, inputs[|inputs| - 1].clock.ready)
    decreases |inputs|
  {
    assert m == |inputs| ==> inputs[..m] == inputs;
    if inputs != [] {
      var front, input := inputs[..|inputs| - 1], inputs[|inputs| - 1];
      assert m < |inputs| ==> front[..m] == inputs[..m];
      assert front != [] ==> front[|front| - 1] == inputs[|inputs| - 2];
      ScaleTimesForward(cfg, sys, front, if m < |inputs| then m else |front|);
      NextScaleTimeForward(cfg, Run(cfg, sys, front), input);
    }
  }

  /**
   Scale actions closer than the cool-down are panic mode's: over every autoscaling run, if the n-th
   reconcile records a scale time less than 30s after one recorded before it, it is inside the window of
   one panic mode.
   */
  lemma {:induction false} CloseScalesAreInPanic(cfg: Config, sys: System, inputs: seq<Input>, m: nat, n: nat)
    returns (j: Option<nat>)
    requires ForwardRun(inputs) && AllAutoscaling(inputs) && m <= n < |inputs|
    requires PanicStored(Panic(sys.status)) && RecordedBy(sys.status.lastScaleTime, inputs[0].clock.purge)
    requires var earlier, before, after := Run(cfg, sys, inputs[..m]).status.lastScaleTime,
                                           Run(cfg, sys, inputs[..n]).status.lastScaleTime,
                                           Next(cfg, Run(cfg, sys, inputs[..n]), inputs[n]).status.lastScaleTime;
             earlier.Some? && after.Some? && after != before && after.value < earlier.value + 30 * SECOND
    ensures InsideWindowOf(cfg, sys, inputs[..n], inputs[n], j)
  {
    var run, at := inputs[..n], Run(cfg, sys, inputs[..n]);
    assert run[..m] == inputs[..m];
    ScaleTimesForward(cfg, sys, run, m);
    NextScaleTime(cfg, at, inputs[n]);
    j := BypassIsBounded(cfg, sys, run, inputs[n]);
  }

  // ---------------------------------------------------------------- downscale safety

  /** All calls to the replicator during a run: those of the other autoscalers, and this one's. */
  ghost function CallsOf(cfg: Config, sys: System, inputs: seq<Input>): seq<R.Call> {
    if inputs == [] then []
    else
      var front, input := inputs[..|inputs| - 1], inputs[|inputs| - 1];
      CallsOf(cfg, sys, front) + input.others + OwnCall(StepOf(cfg, Run(cfg, sys, front), input))
  }

  function OwnCall(s: Step): seq<R.Call> {
    if s.decision.Some? then [s.decision.value.call] else []
  }

  function OwnKey(cfg: Config): string {
    R.UniqueKey(cfg.name, cfg.namespace)
  }

  /** The other autoscalers have other keys, as they do when names hold no slash. */
  ghost predicate OthersApart(cfg: Config, inputs: seq<Input>) {
    forall i, c :: 0 <= i < |inputs| && c in inputs[i].others ==> c.key != OwnKey(cfg)
  }

  lemma {:induction false} AutoscaledHistory(status: Status, history: R.History, cfg: Config, input: Input,
                                             scale: Scale)
    ensures var s := Autoscaled(status, history, cfg, input, scale);
            s.history == if s.decision.None? then history else R.Apply(history, cfg.window, s.decision.value.call)
  {
  }

  lemma {:induction false} HistoryStep(cfg: Config, sys: System, input: Input)
    ensures var s := StepOf(cfg, sys, input);
            s.history == if s.decision.None? then Buffers(cfg, sys, input)
                         else R.Apply(Buffers(cfg, sys, input), cfg.window, s.decision.value.call)
  {
    if input.scale.Some? && input.spec.minReplicas.Some? {
      var scale := input.scale.value;
      AutoscaledHistory(Observed(sys.status, input, scale), Buffers(cfg, sys, input), cfg, input, scale);
    }
  }

  /** The buffers are those of all the calls made, whatever became of the statuses. */
  lemma {:induction false} HistoryFromCalls(cfg: Config, sys: System, inputs: seq<Input>)
    requires sys.history == map[]
    ensures Run(cfg, sys, inputs).history == R.After(CallsOf(cfg, sys, inputs), cfg.window)
  {
    if inputs != [] {
      var front, input := inputs[..|inputs| - 1], inputs[|inputs| - 1];
      var before := Run(cfg, sys, front);
      HistoryFromCalls(cfg, sys, front);
      HistoryStep(cfg, before, input);
      HistoryOfStep(cfg, CallsOf(cfg, sys, front), before.history, input.others, StepOf(cfg, before, input));
    }
  }

  lemma {:induction false} HistoryOfStep(cfg: Config, calls: seq<R.Call>, history: R.History, others: seq<R.Call>,
                                         s: Step)
    requires history == R.After(calls, cfg.window)
    requires var fed := R.Feed(history, cfg.window, others);
             s.history == if s.decision.None? then fed else R.Apply(fed, cfg.window, s.decision.value.call)
    ensures s.history == R.After(calls + others + OwnCall(s), cfg.window)
  {
    R.FeedContinues(calls, cfg.window, others);
    if s.decision.Some? {
      R.OneMoreCall(calls + others, cfg.window, s.decision.value.call);
    } else {
      assert calls + others + [] == calls + others;
    }
  }

  /** The bounds in force: those of the patch in force, or of the specification. */
  function BoundsInForce(cfg: Config, input: Input): (int, int)
    requires input.spec.minReplicas.Some?
  {
    match WorkingPatch(cfg, input)
    case Some(patch) => (patch.minReplicas, patch.maxReplicas)
    case None => (input.spec.minReplicas.value, input.spec.maxReplicas)
  }

  /** What a decision is made of: the replicator's answer, clamped by the bounds in force; and what it writes. */
  ghost predicate DecisionShape(cfg: Config, sys: System, input: Input, s: Step) {
    s.decision.Some? ==>
      var d := s.decision.value;
      && input.spec.minReplicas.Some? && (d.min, d.max) == BoundsInForce(cfg, input)
      && d.replicas == Clamp(R.Answer(Buffers(cfg, sys, input), cfg.window, d.call), d.min, d.max)
      && d.call.key == R.UniqueKey(cfg.name, cfg.namespace)
      && input.scale.Some? && d.call.specReplicas == input.scale.value.specReplicas
      && d.call.outputs == Collect(sys.status.targets, input.targets).outputs
      && d.call.seedAt == input.clock.seed && d.call.now == input.clock.replicator
      && d.call.stampedAt == input.clock.stamp
      && (s.write.Some? ==> s.write.value == d.replicas && PerformsScaling(input.dryRun))
  }

  lemma {:induction false} DecidedIsShaped(status: Status, history: R.History, cfg: Config, input: Input,
                                           specReplicas: int, outputs: map<string, int>)
    ensures var s := Decided(status, history, cfg, input, specReplicas, outputs);
            && s.decision == Some(Decision(CallOf(cfg, input, specReplicas, outputs), MinReplicas(cfg, input),
                                           MaxReplicas(cfg, input), s.decision.value.replicas))
            && s.decision.value.replicas == Clamp(R.Answer(history, cfg.window, s.decision.value.call),
                                                  s.decision.value.min, s.decision.value.max)
            && (s.write.Some? ==> s.write.value == s.decision.value.replicas && PerformsScaling(input.dryRun))
  {
  }

  lemma {:induction false} DecisionIsShaped(cfg: Config, sys: System, input: Input)
    ensures DecisionShape(cfg, sys, input, StepOf(cfg, sys, input))
  {
    if StepOf(cfg, sys, input).decision.Some? {
      var (status, outputs) := Entering(sys.status, input);
      DecisionPath(sys.status, Buffers(cfg, sys, input), cfg, input);
      DecidedIsShaped(status, Buffers(cfg, sys, input), cfg, input, input.scale.value.specReplicas, outputs);
    }
  }

  /** Every target's scaler answers. */
  ghost predicate AllAnswered(targets: seq<Target>) {
    forall i :: 0 <= i < |targets| ==> targets[i].outcome.Answered?
  }

  /** The reconcile finds its target and completes the exhaustion check. */
  predicate FindsTarget(input: Input) {
    !input.deleting && input.scale.Some? && input.exhaust != CheckFailed
  }

  /** The reconcile comes to the target loop. */
  ghost predicate ReachesTargets(status: Status, input: Input) {
    && FindsTarget(input) && input.spec.minReplicas.Some? && input.scale.value.selectorParses
    && PassesGate(status, input)
  }

  /** The replicator is the registered one, by default or by name. */
  predicate UsesSimple(spec: Spec) {
    spec.replicator.None? || spec.replicator.value == "simple"
  }

  /**
   A reconcile comes to a decision exactly when its target is found, the exhaustion check completes, it
   is in the autoscaling flow, past the gate, every target answers, and the replicator is the default.
   */
  lemma {:induction false} DecidesExactlyWhen(cfg: Config, sys: System, input: Input)
    ensures StepOf(cfg, sys, input).decision.Some? <==>
            && ReachesTargets(sys.status, input) && AllAnswered(input.targets)
            && UsesSimple(input.spec)
  {
    AllAnsweredIff(sys.status.targets, input.targets);
    if FindsTarget(input) && input.spec.minReplicas.Some? {
      var observed := Observed(sys.status, input, input.scale.value);
      ObservedGate(sys.status, input);
      AutoscaledDecides(observed, Buffers(cfg, sys, input), cfg, input, input.scale.value);
    }
  }

  lemma {:induction false} ObservedGate(status: Status, input: Input)
    requires input.scale.Some?
    ensures PassesGate(Observed(status, input, input.scale.value), input) == PassesGate(status, input)
  {
    ExhaustFrame(status, input, input.scale.value, C.PanicMode);
  }

  lemma {:induction false} AutoscaledDecides(status: Status, history: R.History, cfg: Config, input: Input,
                                             scale: Scale)
    ensures Autoscaled(status, history, cfg, input, scale).decision.Some? <==>
            && scale.selectorParses && PassesGate(status, input)
            && Collect(status.targets, input.targets).stop.None?
            && UsesSimple(input.spec)
  {
  }

  lemma {:induction false} AllAnsweredIff(statuses: T.Targets, targets: seq<Target>)
    ensures Collect(statuses, targets).stop.None? <==> AllAnswered(targets)
  {
    if targets != [] {
      var front := targets[..|targets| - 1];
      AllAnsweredIff(statuses, front);
      assert forall i :: 0 <= i < |front| ==> front[i] == targets[i];
    }
  }

  /** In the autoscaling flow nothing is written without a decision. */
  lemma {:induction false} WritesAreDecided(cfg: Config, sys: System, input: Input)
    requires input.spec.minReplicas.Some? && StepOf(cfg, sys, input).write.Some?
    ensures StepOf(cfg, sys, input).decision.Some?
  {
  }

  /** The calls under a key read the clock in order, none later than `last`. */
  ghost predicate CallsInOrder(calls: seq<R.Call>, key: string, last: Time) {
    && R.ClockForward(calls, key)
    && forall i :: 0 <= i < |calls| && calls[i].key == key ==> calls[i].stampedAt <= last
  }

  lemma {:induction false} OneMoreInOrder(calls: seq<R.Call>, key: string, last: Time, c: R.Call, later: Time)
    requires CallsInOrder(calls, key, last)
    requires c.key == key && last <= c.seedAt <= c.now <= c.stampedAt <= later
    ensures CallsInOrder(calls + [c], key, later)
  {
    var all := calls + [c];
    forall i, j | 0 <= i < j < |all| && all[i].key == key && all[j].key == key
      ensures all[i].stampedAt <= all[j].seedAt
    {
      if j < |calls| {
        assert calls[i].stampedAt <= calls[j].seedAt;
      }
    }
  }

  lemma {:induction false} OthersInOrder(calls: seq<R.Call>, key: string, last: Time, others: seq<R.Call>)
    requires CallsInOrder(calls, key, last) && forall c :: c in others ==> c.key != key
    ensures CallsInOrder(calls + others, key, last)
  {
    var all := calls + others;
    assert forall k :: |calls| <= k < |all| ==> all[k] in others;
    assert forall k :: 0 <= k < |calls| ==> all[k] == calls[k];
  }

  lemma {:induction false} StepInOrder(calls: seq<R.Call>, key: string, last: Time, input: Input, s: Step)
    requires CallsInOrder(calls, key, last) && input.clock.Forward() && last <= input.clock.purge
    requires forall c :: c in input.others ==> c.key != key
    requires s.decision.Some? ==>
               var c := s.decision.value.call;
               && c.key == key && c.seedAt == input.clock.seed && c.now == input.clock.replicator
               && c.stampedAt == input.clock.stamp
    ensures CallsInOrder(calls + input.others + OwnCall(s), key, input.clock.ready)
  {
    OthersInOrder(calls, key, last, input.others);
    if s.decision.Some? {
      OneMoreInOrder(calls + input.others, key, last, s.decision.value.call, input.clock.ready);
    } else {
      assert calls + input.others + [] == calls + input.others;
    }
  }

  lemma {:induction false} CallsKeepOrder(cfg: Config, sys: System, inputs: seq<Input>)
    requires ForwardRun(inputs) && OthersApart(cfg, inputs)
    ensures CallsInOrder(CallsOf(cfg, sys, inputs), OwnKey(cfg),
                         if inputs == [] then 0 else inputs[|inputs| - 1].clock.ready)
  {
    if inputs != [] {
      var front, input := inputs[..|inputs| - 1], inputs[|inputs| - 1];
      var calls, before := CallsOf(cfg, sys, front), Run(cfg, sys, front);
      CallsKeepOrder(cfg, sys, front);
      DecisionIsShaped(cfg, before, input);
      assert inputs[|inputs| - 1] == input;
      if front == [] {
        assert calls == [];
        assert CallsInOrder(calls, OwnKey(cfg), input.clock.purge);
        StepInOrder(calls, OwnKey(cfg), input.clock.purge, input, StepOf(cfg, before, input));
      } else {
        assert front[|front| - 1] == inputs[|inputs| - 2];
        StepInOrder(calls, OwnKey(cfg), front[|front| - 1].clock.ready, input, StepOf(cfg, before, input));
      }
    }
  }

  /** Everything recommended for this autoscaler since the process started, the seed first. */
  ghost function LogOf(cfg: Config, sys: System, inputs: seq<Input>): seq<R.Recommendation> {
    R.FullLog(CallsOf(cfg, sys, inputs), OwnKey(cfg))
  }

  /**
   The replicas are the largest recommendation of the window put between the bounds in force, and no lower
   than any recommendation of the window is when put there. A write writes them, and only outside dry run.
   */
  ghost predicate HoldsUp(cfg: Config, input: Input, s: Step, log: seq<R.Recommendation>) {
    && s.decision.Some? && input.spec.minReplicas.Some?
    && var d, cutoff := s.decision.value, input.clock.replicator - cfg.window;
       && (d.min, d.max) == BoundsInForce(cfg, input)
       && (exists m :: R.IsWindowMax(m, log, cutoff) && IsClamped(m, d.min, d.max, d.replicas))
       && (if d.min <= d.max then d.min <= d.replicas <= d.max else d.replicas == d.min)
       && (forall r :: r in log && r.timestamp >= cutoff ==> Clamp(r.replicas, d.min, d.max) <= d.replicas)
       && (s.write.Some? ==> s.write.value == d.replicas && input.dryRun == Some("false"))
  }

  lemma {:induction false} ShapeHoldsUp(cfg: Config, sys: System, input: Input, s: Step, log: seq<R.Recommendation>)
    requires s.decision.Some? && DecisionShape(cfg, sys, input, s)
    requires R.IsWindowMax(R.Answer(Buffers(cfg, sys, input), cfg.window, s.decision.value.call), log,
                           input.clock.replicator - cfg.window)
    ensures HoldsUp(cfg, input, s, log)
  {
    ClampOfMax(R.Answer(Buffers(cfg, sys, input), cfg.window, s.decision.value.call), log,
               input.clock.replicator - cfg.window, s.decision.value.min, s.decision.value.max);
  }

  lemma {:induction false} AnswerIsWindowMax(cfg: Config, sys: System, inputs: seq<Input>)
    requires sys.history == map[] && cfg.window >= 0 && inputs != []
    requires ForwardRun(inputs) && OthersApart(cfg, inputs)
    requires StepOf(cfg, Run(cfg, sys, inputs[..|inputs| - 1]), inputs[|inputs| - 1]).decision.Some?
    ensures var before, input := Run(cfg, sys, inputs[..|inputs| - 1]), inputs[|inputs| - 1];
            var call := StepOf(cfg, before, input).decision.value.call;
            R.IsWindowMax(R.Answer(Buffers(cfg, before, input), cfg.window, call), LogOf(cfg, sys, inputs),
                          input.clock.replicator - cfg.window)
  {
    var front, input := inputs[..|inputs| - 1], inputs[|inputs| - 1];
    var before := Run(cfg, sys, front);
    var d, calls := StepOf(cfg, before, input).decision.value, CallsOf(cfg, sys, inputs);
    var earlier := CallsOf(cfg, sys, front) + input.others;
    HistoryFromCalls(cfg, sys, front);
    R.FeedContinues(CallsOf(cfg, sys, front), cfg.window, input.others);
    DecisionIsShaped(cfg, before, input);
    CallsKeepOrder(cfg, sys, inputs);
    assert calls == earlier + [d.call];
    assert calls[..|calls| - 1] == earlier;
    R.BufferRefinesLog(calls, cfg.window);
  }

  /**
   Downscale safety: over every run from a process start, whatever statuses were lost and whatever other
   autoscalers asked the shared replicator in between, the decision of the last reconcile is held up by
   everything recommended for the autoscaler within the window.
   */
  lemma {:induction false} DownscaleSafety(cfg: Config, sys: System, inputs: seq<Input>)
    requires sys.history == map[] && cfg.window >= 0 && inputs != []
    requires ForwardRun(inputs) && OthersApart(cfg, inputs)
    requires StepOf(cfg, Run(cfg, sys, inputs[..|inputs| - 1]), inputs[|inputs| - 1]).decision.Some?
    ensures var input := inputs[|inputs| - 1];
            HoldsUp(cfg, input, StepOf(cfg, Run(cfg, sys, inputs[..|inputs| - 1]), input), LogOf(cfg, sys, inputs))
  {
    var before, input := Run(cfg, sys, inputs[..|inputs| - 1]), inputs[|inputs| - 1];
    AnswerIsWindowMax(cfg, sys, inputs);
    DecisionIsShaped(cfg, before, input);
    ShapeHoldsUp(cfg, before, input, StepOf(cfg, before, input), LogOf(cfg, sys, inputs));
  }

  lemma {:induction false} ClampOfMax(m: int, log: seq<R.Recommendation>, cutoff: Time, min: int, max: int)
    requires R.IsWindowMax(m, log, cutoff)
    ensures forall r :: r in log && r.timestamp >= cutoff ==> Clamp(r.replicas, min, max) <= Clamp(m, min, max)
    ensures IsClamped(m, min, max, Clamp(m, min, max))
    ensures if min <= max then min <= Clamp(m, min, max) <= max else Clamp(m, min, max) == min
  {
    forall r | r in log && r.timestamp >= cutoff ensures Clamp(r.replicas, min, max) <= Clamp(m, min, max) {
      ClampMonotone(r.replicas, m, min, max);
    }
  }

  // ---------------------------------------------------------------- the purge that opens a reconcile

  /**
   The purge never changes the bounds: the patch in force is the one the unpurged annotation selects,
   whenever that selection succeeds.
   */
  lemma {:induction false} PurgeKeepsWorkingPatch(cfg: Config, input: Input)
    requires P.DatesAreNotCron(cfg.parsers) && input.clock.Forward() && input.patches.Patches?
    requires forall i :: 0 <= i < |input.patches.list| ==> input.patches.list[i].retentionSeconds.GetOr(0) >= 0
    requires P.Select(cfg.parsers, input.patches.list, input.clock.lookup).Ok?
    ensures WorkingPatch(cfg, input) == P.Select(cfg.parsers, input.patches.list, input.clock.lookup).value
  {
    P.PurgedList(cfg.parsers, input.patches, input.clock.purge);
    P.PurgePreservesSelection(cfg.parsers, input.patches.list, input.clock.purge, input.clock.lookup);
  }

  /** The patch in force is the first that the purge leaves and whose window is now, if none before it is at fault. */
  lemma {:induction false} WorkingPatchIff(cfg: Config, input: Input, p: P.ReplicaPatch)
    ensures WorkingPatch(cfg, input) == Some(p) <==>
              && input.patches.Patches?
              && P.FirstLive(cfg.parsers, input.patches.list, input.clock.purge, input.clock.lookup, p)
  {
    P.PurgedList(cfg.parsers, input.patches, input.clock.purge);
    match input.patches
    case Patches(list) => P.SelectAfterPurge(cfg.parsers, list, input.clock.purge, input.clock.lookup, p);
    case _ =>
  }

  // ---------------------------------------------------------------- every target counts

  ghost predicate DistinctMetrics(targets: seq<Target>) {
    forall i, j :: 0 <= i < j < |targets| ==> targets[i].metric != targets[j].metric
  }

  /** With distinct metric names the outputs keep every target's answer. */
  lemma {:induction false} OutputsKeepAnswers(statuses: T.Targets, targets: seq<Target>, i: nat)
    requires i < |targets| && DistinctMetrics(targets) && Collect(statuses, targets).stop.None?
    ensures targets[i].outcome.Answered?
    ensures targets[i].metric in Collect(statuses, targets).outputs
    ensures Collect(statuses, targets).outputs[targets[i].metric] == targets[i].outcome.desired
    decreases |targets|
  {
    if i < |targets| - 1 {
      OutputsKeepAnswers(statuses, targets[..|targets| - 1], i);
    }
  }

  /** So the decision is no lower than what any target asks for, up to the bounds. */
  lemma {:induction false} DecisionCoversTargets(cfg: Config, sys: System, input: Input, i: nat)
    requires DistinctMetrics(input.targets) && i < |input.targets|
    requires StepOf(cfg, sys, input).decision.Some?
    ensures input.targets[i].outcome.Answered?
    ensures var d := StepOf(cfg, sys, input).decision.value;
            Clamp(input.targets[i].outcome.desired, d.min, d.max) <= d.replicas
  {
    var d := StepOf(cfg, sys, input).decision.value;
    var asked := input.targets[i].outcome;
    DecisionPath(sys.status, Buffers(cfg, sys, input), cfg, input);
    DecisionIsShaped(cfg, sys, input);
    OutputsKeepAnswers(sys.status.targets, input.targets, i);
    ShapeCovers(cfg, sys, input, StepOf(cfg, sys, input), input.targets[i].metric, asked.desired);
  }

  lemma {:induction false} ShapeCovers(cfg: Config, sys: System, input: Input, s: Step, metric: string, desired: int)
    requires s.decision.Some? && DecisionShape(cfg, sys, input, s)
    requires metric in s.decision.value.call.outputs && s.decision.value.call.outputs[metric] == desired
    ensures Clamp(desired, s.decision.value.min, s.decision.value.max) <= s.decision.value.replicas
  {
    var d := s.decision.value;
    R.AnswerCoversOutput(Buffers(cfg, sys, input), cfg.window, d.call, metric);
    ClampMonotone(desired, R.Answer(Buffers(cfg, sys, input), cfg.window, d.call), d.min, d.max);
  }
}
