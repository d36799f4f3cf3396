/** How far apart the scale actions of a run are. */
module ScaleActions {
  import opened Common
  import opened Controller
  import opened ControllerRuns
  import opened PanicRuns
  import opened ScaleRuns
  import opened StepLaws

  /** The i-th reconcile scales: it settles on other replicas than the scale has, and does not fail to write them. */
  ghost predicate ActsAt(cfg: Config, sys: System, inputs: seq<Input>, i: nat)
    requires i < |inputs|
  {
    var wanted := Wanted(inputs[i], StepOf(cfg, Run(cfg, sys, inputs[..i]), inputs[i]));
    wanted.Some? && Acts(inputs[i], wanted.value)
  }

  /** After an action whose status was stored, the recorded time is the whole second of the action. */
  lemma {:induction false} ActionIsRecorded(cfg: Config, sys: System, inputs: seq<Input>, i: nat)
    requires i < |inputs| && ActsAt(cfg, sys, inputs, i) && inputs[i].statusPatchOk
    ensures Run(cfg, sys, inputs[..i + 1]).status.lastScaleTime == Some(WholeSeconds(inputs[i].clock.scaled))
  {
    assert inputs[..i + 1][..i] == inputs[..i];
    ScaleLaw(cfg, Run(cfg, sys, inputs[..i]), inputs[i]);
  }

  /** And no later reconcile finds an earlier time recorded. */
  lemma {:induction false} ActionStaysRecorded(cfg: Config, sys: System, inputs: seq<Input>, i: nat, j: nat)
    requires ForwardRun(inputs) && AllAutoscaling(inputs) && i < j <= |inputs|
    requires RecordedBy(sys.status.lastScaleTime, inputs[0].clock.purge)
    requires ActsAt(cfg, sys, inputs, i) && inputs[i].statusPatchOk
    ensures var last := Run(cfg, sys, inputs[..j]).status.lastScaleTime;
            last.Some? && WholeSeconds(inputs[i].clock.scaled) <= last.value
  {
    var run := inputs[..j];
    assert run[..i + 1] == inputs[..i + 1];
    ActionIsRecorded(cfg, sys, inputs, i);
    ScaleTimesForward(cfg, sys, run, i + 1);
  }

  /** An action in the autoscaling flow passed the gate. */
  lemma {:induction false} ActionPassedGate(cfg: Config, sys: System, inputs: seq<Input>, j: nat)
    requires j < |inputs| && ActsAt(cfg, sys, inputs, j) && inputs[j].spec.minReplicas.Some?
    ensures PassesGate(Run(cfg, sys, inputs[..j]).status, inputs[j])
  {
    DecidesExactlyWhen(cfg, Run(cfg, sys, inputs[..j]), inputs[j]);
  }

  /**
   The rate limit on the actions themselves: over every autoscaling run, an action whose status was
   stored and any later one are at least 30 seconds apart, by the clock of whole seconds that the status
   keeps, unless the later one is inside the window of one panic mode.
   */
  lemma {:induction false} ActionsApart(cfg: Config, sys: System, inputs: seq<Input>, i: nat, j: nat)
    returns (w: Option<nat>)
    requires ForwardRun(inputs) && AllAutoscaling(inputs) && i < j < |inputs|
    requires PanicStored(Panic(sys.status)) && RecordedBy(sys.status.lastScaleTime, inputs[0].clock.purge)
    requires ActsAt(cfg, sys, inputs, i) && ActsAt(cfg, sys, inputs, j) && inputs[i].statusPatchOk
    ensures || WholeSeconds(inputs[i].clock.scaled) + 30 * SECOND <= WholeSeconds(inputs[j].clock.scaled)
            || InsideWindowOf(cfg, sys, inputs[..j], inputs[j], w)
  {
    var run := inputs[..j];
    ActionStaysRecorded(cfg, sys, inputs, i, j);
    ActionPassedGate(cfg, sys, inputs, j);
    if inputs[j].clock.sinceScale - Run(cfg, sys, run).status.lastScaleTime.value >= 30 * SECOND {
      WholeSecondsMonotone(inputs[i].clock.scaled, 30, inputs[j].clock.scaled);
      w := None;
    } else {
      w := BypassIsBounded(cfg, sys, run, inputs[j]);
    }
  }
}
