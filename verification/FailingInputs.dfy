/** Concrete reconciles at which a promise of the code fails. */
module FailingInputs {
  import opened Common
  import opened Controller
  import opened ControllerRuns
  import opened ScaleRuns
  import opened ScaleActions
  import opened StepLaws
  import opened TransitionTimes
  import C = Conditions
  import P = ReplicaPatches

  /** Every reading of a reconcile at one instant. */
  function AllAt(t: Time): Clock {
    Clock(t, t, t, t, t, t, t, t, t, t, t, t, t, t, t, t)
  }

  /** Parsers that know one date window, from 0 to 1000 seconds. */
  function OneWindow(): P.Parsers {
    P.Parsers(zone => Some(0),
              (zone, spec) => if spec == "d s" then Some(0) else if spec == "d e" then Some(1000 * SECOND) else None,
              (zone, spec) => None)
  }

  function Web(): Config {
    Config("web", "prod", 30 * SECOND, OneWindow())
  }

  /** One replica now, bounds one and ten, a panic window of ten seconds at twice the replicas. */
  function Asked(t: Time, targets: seq<Target>, patches: P.Annotation): Input {
    Input(Spec(Some(1), 10, Some(C.Strategy(Some(10), Some(2.0))), None), false, Some(Scale(1, 1, true)),
          NotExhausted, None, patches, targets, true, true, AllAt(t), [])
  }

  function TenWanted(): seq<Target> {
    [Target("cpu", Answered(10, [], []))]
  }

  function Fresh(conditions: C.ConditionList): System {
    System(Status(None, 0, 0, [], conditions), map[])
  }

  // ---------------------------------------------------------------- ReplicaPatched

  function Patch(): P.ReplicaPatch {
    P.ReplicaPatch("UTC", "d s", "d e", None, 5, 20)
  }

  lemma {:induction false} PatchInForce(t: Time)
    requires 0 <= t <= 1000 * SECOND
    ensures WorkingPatch(Web(), Asked(t, [], P.Patches([Patch()]))) == Some(Patch())
  {
    var ps, input := OneWindow(), Asked(t, [], P.Patches([Patch()]));
    P.DateStartIsDateWindow(ps, Patch(), "d", "s") by {
      assert Patch().start == "d" + " " + "s";
    }
    assert !P.Expired(ps, Patch(), t);
    P.UnexpiredFromFront(ps, [Patch()], t);
    assert [Patch()][1..] == [] && P.Unexpired(ps, [], t) == [];
    assert P.Unexpired(ps, [Patch()], t) == [Patch()];
    assert [Patch()][0] == Patch();
    P.PurgedList(ps, input.patches, input.clock.purge);
  }

  /** The stored entry announces the patch in force, and a reconcile a minute later changes nothing but its time. */
  lemma {:induction false} ReplicaPatchedMovesWithoutChange()
    ensures var sys := Fresh([C.Condition(C.ReplicaPatched, C.True, C.PatchApplied(5, 20), 0)]);
            var input := Asked(60 * SECOND, [], P.Patches([Patch()]));
            !MovesOnNetChange(C.Get(sys.status.conditions, C.ReplicaPatched),
                              C.Get(StepOf(Web(), sys, input).status.conditions, C.ReplicaPatched))
  {
    var entry := C.Condition(C.ReplicaPatched, C.True, C.PatchApplied(5, 20), 0);
    var sys, input := Fresh([entry]), Asked(60 * SECOND, [], P.Patches([Patch()]));
    C.FindIsFirst([entry], C.ReplicaPatched, 0);
    PatchInForce(60 * SECOND);
    assert ReachesTargets(sys.status, input);
    ReplicaPatchedTransitionsIff(Web(), sys, input);
  }

  // ---------------------------------------------------------------- Ready

  /** Ready is on and stays on while the only target has no scaler, and its time moves all the same. */
  lemma {:induction false} ReadyMovesWithoutChange()
    ensures var sys := Fresh([C.Condition(C.Ready, C.True, C.NoReason, 0)]);
            var input := Asked(60 * SECOND, [Target("gpu", NoSuchScaler)], P.Absent);
            !MovesOnNetChange(C.Get(sys.status.conditions, C.Ready),
                              C.Get(StepOf(Web(), sys, input).status.conditions, C.Ready))
  {
    var entry := C.Condition(C.Ready, C.True, C.NoReason, 0);
    var sys, input := Fresh([entry]), Asked(60 * SECOND, [Target("gpu", NoSuchScaler)], P.Absent);
    C.FindIsFirst([entry], C.Ready, 0);
    assert input.targets[0].outcome.NoSuchScaler?;
    assert MissesScalerFirst(input.targets);
    assert ReachesTargets(sys.status, input);
    ReadyTransitionsIff(Web(), sys, input);
  }

  // ---------------------------------------------------------------- panic mode

  /** A decision reported as panic mode. */
  ghost predicate Triggers(cfg: Config, sys: System, input: Input) {
    StepOf(cfg, sys, input).decision.Some? && StepOf(cfg, sys, input).requeue == AfterPanic
  }

  /** In dry run, a decision that asks for panic mode is a trigger: it writes an entry that is off, and no other. */
  lemma {:induction false} DecisionTriggers(cfg: Config, sys: System, input: Input)
    requires PanicStored(Panic(sys.status)) && input.statusPatchOk && !PerformsScaling(input.dryRun)
    requires StepOf(cfg, sys, input).decision.Some? && input.scale.Some?
    requires EntersPanic(input, input.scale.value.specReplicas, StepOf(cfg, sys, input).decision.value.replicas)
    ensures Triggers(cfg, sys, input)
    ensures var before, at := Panic(sys.status), WholeSeconds(input.clock.panicSet);
            Panic(Next(cfg, sys, input).status) ==
            if before.status == C.True then before else C.Condition(C.PanicMode, C.True, C.NoReason, at)
  {
    DryRunRequeue(cfg, sys, input);
    NextPanicMove(cfg, sys, input);
    TriggerTurnsOn(cfg, sys, input);
  }

  lemma SecondsAreWhole(n: int)
    ensures (n * SECOND) % SECOND == 0
  {
  }

  lemma TenIsPanic(input: Input, t: Time)
    requires input == Asked(t, TenWanted(), P.Absent)
    ensures EntersPanic(input, 1, 10)
  {
    C.PanicTriggerIff(10, 1, input.spec.strategy);
  }

  /** Wanting ten replicas of one is decided as ten, and is reported as panic mode. */
  lemma {:induction false} TenIsATrigger(cfg: Config, sys: System, input: Input, t: Time)
    requires cfg == Web() && input == Asked(t, TenWanted(), P.Absent) && t % SECOND == 0
    requires PanicStored(Panic(sys.status))
    requires RecordedBy(sys.status.lastScaleTime, t - COOL_DOWN)
    ensures Triggers(cfg, sys, input)
    ensures var before, next := Panic(sys.status), Next(cfg, sys, input).status;
            && Panic(next) ==
               (if before.status == C.True then before else C.Condition(C.PanicMode, C.True, C.NoReason, t))
            && RecordedBy(next.lastScaleTime, t)
  {
    DecidesExactlyWhen(cfg, sys, input);
    DecisionCoversTargets(cfg, sys, input, 0);
    DecisionIsShaped(cfg, sys, input);
    assert P.PatchesOf(P.Purged(OneWindow(), P.Absent, t)) == Ok([]);
    assert WorkingPatch(cfg, input) == None;
    assert StepOf(cfg, sys, input).decision.value.replicas == 10;
    TenIsPanic(input, t);
    DecisionTriggers(cfg, sys, input);
    NextScaleTimeForward(cfg, sys, input);
  }

  lemma {:induction false} FreshStart(start: System)
    requires start == Fresh([])
    ensures PanicStored(Panic(start.status)) && Panic(start.status).status != C.True
    ensures start.status.lastScaleTime.None?
  {
    C.FindNothing(C.Initialized([]), C.PanicMode);
  }

  lemma {:induction false} RunOfTwo(cfg: Config, start: System, first: Input, second: Input)
    ensures Run(cfg, start, [first]) == Next(cfg, start, first)
    ensures Run(cfg, start, [first, second]) == Next(cfg, Next(cfg, start, first), second)
  {
    assert [first][..0] == [] && [first, second][..1] == [first];
  }

  /**
   A reachable stale entry: a first trigger, and a second one after the first window. The second reconcile
   is reported as panic mode too, yet no instant from then on is in panic mode.
   */
  lemma {:induction false} StaleTriggerOpensNoWindow(cfg: Config, start: System, first: Input, second: Input)
    requires cfg == Web() && start == Fresh([])
    requires first == Asked(100 * SECOND, TenWanted(), P.Absent)
    requires second == Asked(200 * SECOND, TenWanted(), P.Absent)
    ensures Triggers(cfg, start, first) && Triggers(cfg, Run(cfg, start, [first]), second)
    ensures var after := Panic(Run(cfg, start, [first, second]).status);
            && after == C.Condition(C.PanicMode, C.True, C.NoReason, 100 * SECOND)
            && forall t :: t >= 200 * SECOND ==> !Live(after, second.spec.strategy, t)
  {
    RunOfTwo(cfg, start, first, second);
    FreshStart(start);
    SecondsAreWhole(100);
    SecondsAreWhole(200);
    TenIsATrigger(cfg, start, first, 100 * SECOND);
    TenIsATrigger(cfg, Next(cfg, start, first), second, 200 * SECOND);
  }

  // ---------------------------------------------------------------- the cool-down

  /** Scaling is performed, between one and twenty replicas and without panic mode; the status may be lost. */
  function Scaling(t: Time, current: int, wanted: int, stored: bool): Input {
    Input(Spec(Some(1), 20, None, None), false, Some(Scale(current, current, true)), NotExhausted, Some("false"),
          P.Absent, [Target("cpu", Answered(wanted, [], []))], true, stored, AllAt(t), [])
  }

  lemma {:induction false} WantingMoreActs(cfg: Config, sys: System, input: Input, t: Time, current: int, wanted: int,
                                           stored: bool)
    requires cfg == Web() && input == Scaling(t, current, wanted, stored) && 1 <= current < wanted <= 20
    requires sys.status.lastScaleTime.None?
    ensures var w := Wanted(input, StepOf(cfg, sys, input)); w.Some? && Acts(input, w.value)
  {
    DecidesExactlyWhen(cfg, sys, input);
    DecisionCoversTargets(cfg, sys, input, 0);
    BoundsLaw(cfg, sys, input);
    assert P.PatchesOf(P.Purged(OneWindow(), P.Absent, t)) == Ok([]);
    assert WorkingPatch(cfg, input) == None;
  }

  /** A status that could not be stored takes the cool-down with it: two writes ten seconds apart. */
  lemma {:induction false} LostStatusLosesCoolDown(cfg: Config, start: System, inputs: seq<Input>)
    requires cfg == Web() && start == Fresh([])
    requires inputs == [Scaling(100 * SECOND, 1, 10, false), Scaling(110 * SECOND, 10, 20, true)]
    ensures ActsAt(cfg, start, inputs, 0) && ActsAt(cfg, start, inputs, 1)
  {
    assert inputs[..0] == [] && inputs[..1] == [inputs[0]] && [inputs[0]][..0] == [];
    WantingMoreActs(cfg, start, inputs[0], 100 * SECOND, 1, 10, false);
    WantingMoreActs(cfg, Next(cfg, start, inputs[0]), inputs[1], 110 * SECOND, 10, 20, true);
  }
}
