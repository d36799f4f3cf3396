/** Panic mode over whole runs: who may pass the cool-down early, for how long, and how often. */
module PanicRuns {
  import opened Common
  import opened Controller
  import opened ControllerRuns
  import C = Conditions

  // ---------------------------------------------------------------- the panic entry along a run

  /** The stored panic entry before each reconcile of a run, and after the last one. */
  ghost function PanicTrace(cfg: Config, sys: System, inputs: seq<Input>): (trace: seq<C.Condition>)
    ensures |trace| == |inputs| + 1
    ensures trace[0] == Panic(sys.status)
    ensures trace[|inputs|] == Panic(Run(cfg, sys, inputs).status)
  {
    if inputs == [] then [Panic(sys.status)]
    else PanicTrace(cfg, sys, inputs[..|inputs| - 1]) + [Panic(Run(cfg, sys, inputs).status)]
  }

  /** What each reconcile of a run decided, if it came that far. */
  ghost function Decisions(cfg: Config, sys: System, inputs: seq<Input>): (decisions: seq<Option<Decision>>)
    ensures |decisions| == |inputs|
  {
    if inputs == [] then []
    else
      var front := inputs[..|inputs| - 1];
      Decisions(cfg, sys, front) + [StepOf(cfg, Run(cfg, sys, front), inputs[|inputs| - 1]).decision]
  }

  /** The n-th reconcile turns panic mode on. */
  ghost predicate TurnsOnAt(trace: seq<C.Condition>, inputs: seq<Input>, decisions: seq<Option<Decision>>, n: nat)
    requires n < |inputs| == |decisions| && |trace| == |inputs| + 1
  {
    TurnedOn(inputs[n], decisions[n], trace[n], trace[n + 1], WholeSeconds(inputs[n].clock.panicSet))
  }

  /** The n-th reconcile finds panic mode over and turns it off. */
  ghost predicate TurnsOffAt(trace: seq<C.Condition>, inputs: seq<Input>, n: nat)
    requires n < |inputs| && |trace| == |inputs| + 1
  {
    TurnedOff(inputs[n], trace[n], trace[n + 1], WholeSeconds(inputs[n].clock.panicSet))
  }

  ghost predicate IsTrace(trace: seq<C.Condition>, inputs: seq<Input>, decisions: seq<Option<Decision>>) {
    && |inputs| == |decisions| && |trace| == |inputs| + 1
    && (forall n :: 0 <= n < |trace| ==> PanicStored(trace[n]))
    && (forall n :: 0 <= n < |inputs| ==>
          || trace[n + 1] == trace[n]
          || TurnsOnAt(trace, inputs, decisions, n)
          || TurnsOffAt(trace, inputs, n))
  }

  /** The parts a run's last reconcile adds. */
  lemma {:induction false} LastMove(cfg: Config, sys: System, inputs: seq<Input>)
    returns (entry: C.Condition, decision: Option<Decision>)
    requires inputs != [] && PanicStored(Panic(Run(cfg, sys, inputs[..|inputs| - 1]).status))
    ensures entry == Panic(Run(cfg, sys, inputs).status)
    ensures decision == StepOf(cfg, Run(cfg, sys, inputs[..|inputs| - 1]), inputs[|inputs| - 1]).decision
    ensures PanicStored(entry)
    ensures PanicMove(inputs[|inputs| - 1], decision, Panic(Run(cfg, sys, inputs[..|inputs| - 1]).status), entry,
                      WholeSeconds(inputs[|inputs| - 1].clock.panicSet))
  {
    var before, input := Run(cfg, sys, inputs[..|inputs| - 1]), inputs[|inputs| - 1];
    NextPanicMove(cfg, before, input);
    entry, decision := Panic(Next(cfg, before, input).status), StepOf(cfg, before, input).decision;
  }

  lemma {:induction false} TraceOfOneMore(cfg: Config, sys: System, inputs: seq<Input>)
    requires inputs != []
    requires IsTrace(PanicTrace(cfg, sys, inputs[..|inputs| - 1]), inputs[..|inputs| - 1],
                     Decisions(cfg, sys, inputs[..|inputs| - 1]))
    ensures IsTrace(PanicTrace(cfg, sys, inputs), inputs, Decisions(cfg, sys, inputs))
  {
    var front, input := inputs[..|inputs| - 1], inputs[|inputs| - 1];
    var trace, decisions := PanicTrace(cfg, sys, front), Decisions(cfg, sys, front);
    assert PanicStored(trace[|front|]);
    var entry, decision := LastMove(cfg, sys, inputs);
    TraceExtends(trace, front, decisions, entry, input, decision);
    FrontAndLast(inputs);
  }

  lemma FrontAndLast(inputs: seq<Input>)
    requires inputs != []
    ensures inputs[..|inputs| - 1] + [inputs[|inputs| - 1]] == inputs
  {
  }

  /** Over every run the stored entry only moves by being turned on or off. */
  lemma {:induction false} RunMakesTrace(cfg: Config, sys: System, inputs: seq<Input>)
    requires PanicStored(Panic(sys.status))
    ensures IsTrace(PanicTrace(cfg, sys, inputs), inputs, Decisions(cfg, sys, inputs))
  {
    if inputs != [] {
      RunMakesTrace(cfg, sys, inputs[..|inputs| - 1]);
      TraceOfOneMore(cfg, sys, inputs);
    }
  }

  lemma {:induction false} TraceExtends(trace: seq<C.Condition>, inputs: seq<Input>, decisions: seq<Option<Decision>>,
                                        entry: C.Condition, input: Input, decision: Option<Decision>)
    requires IsTrace(trace, inputs, decisions) && PanicStored(entry)
    requires PanicMove(input, decision, trace[|inputs|], entry, WholeSeconds(input.clock.panicSet))
    ensures IsTrace(trace + [entry], inputs + [input], decisions + [decision])
  {
    var trace', inputs', decisions' := trace + [entry], inputs + [input], decisions + [decision];
    forall n | 0 <= n < |inputs'|
      ensures || trace'[n + 1] == trace'[n]
              || TurnsOnAt(trace', inputs', decisions', n)
              || TurnsOffAt(trace', inputs', n)
    {
      if n < |inputs| {
        assert trace'[n] == trace[n] && trace'[n + 1] == trace[n + 1];
        assert TurnsOnAt(trace, inputs, decisions, n) ==> TurnsOnAt(trace', inputs', decisions', n);
        assert TurnsOffAt(trace, inputs, n) ==> TurnsOffAt(trace', inputs', n);
      }
    }
  }

  // ---------------------------------------------------------------- along a trace

  /** The reconcile that turned on the panic mode in force, or none if it was on at the start; untouched since. */
  lemma {:induction false} EntryOf(trace: seq<C.Condition>, inputs: seq<Input>, decisions: seq<Option<Decision>>,
                                   n: nat)
    returns (j: Option<nat>)
    requires IsTrace(trace, inputs, decisions) && n <= |inputs| && trace[n].status == C.True
    ensures j.Some? ==> j.value < n && TurnsOnAt(trace, inputs, decisions, j.value)
    ensures forall k :: (if j.Some? then j.value + 1 else 0) <= k <= n ==> trace[k] == trace[n]
    decreases n
  {
    if n == 0 {
      j := None;
    } else {
      assert trace[n - 1 + 1] == trace[n];
      if TurnsOnAt(trace, inputs, decisions, n - 1) {
        j := Some(n - 1);
      } else {
        assert trace[n] == trace[n - 1];
        j := EntryOf(trace, inputs, decisions, n - 1);
      }
    }
  }

  /** From on to off there is a first reconcile that turns it off, with the entry untouched till then. */
  lemma {:induction false} FirstOff(trace: seq<C.Condition>, inputs: seq<Input>, decisions: seq<Option<Decision>>,
                                    a: nat, b: nat)
    returns (k: nat)
    requires IsTrace(trace, inputs, decisions) && a <= b <= |inputs|
    requires trace[a].status == C.True && trace[b].status != C.True
    ensures a <= k < b && TurnsOffAt(trace, inputs, k) && trace[k] == trace[a]
    decreases b - a
  {
    if trace[a + 1].status == C.True {
      k := FirstOff(trace, inputs, decisions, a + 1, b);
    } else {
      k := a;
    }
  }

  // ---------------------------------------------------------------- the theorems

  /** Past the gate: nothing was scaled yet, or not for 30 seconds, or a panic window is on. */
  ghost predicate PassesGate(status: Status, input: Input) {
    || status.lastScaleTime.None?
    || input.clock.sinceScale - status.lastScaleTime.value >= 30 * SECOND
    || Live(Panic(status), input.spec.strategy, input.clock.gate)
  }

  /** The reconcile goes past a cool-down that is still on. */
  ghost predicate PassesEarly(status: Status, input: Input) {
    && status.lastScaleTime.Some? && input.clock.sinceScale - status.lastScaleTime.value < 30 * SECOND
    && Live(Panic(status), input.spec.strategy, input.clock.gate)
  }

  /**
   A reconcile after this run is inside the window of one panic mode: the one that reconcile j turned on,
   or, without j, the one stored when the run started. Nothing touched the entry since.
   */
  ghost predicate InsideWindowOf(cfg: Config, sys: System, inputs: seq<Input>, input: Input, j: Option<nat>) {
    var trace := PanicTrace(cfg, sys, inputs);
    && C.IsPanicModeConfigured(input.spec.strategy)
    && trace[|inputs|].status == C.True
    && (match j
        case Some(n) =>
          && n < |inputs|
          && TurnsOnAt(trace, inputs, Decisions(cfg, sys, inputs), n)
          && (forall k :: n < k <= |inputs| ==> trace[k] == trace[|inputs|])
          && input.clock.gate - inputs[n].clock.panicSet < C.PanicWindow(input.spec.strategy)
        case None =>
          && (forall k :: 0 <= k <= |inputs| ==> trace[k] == trace[|inputs|])
          && input.clock.gate - Panic(sys.status).lastTransition < C.PanicWindow(input.spec.strategy))
  }

  /**
   Panic bypass is bounded: over every run, from any stored panic entry, a reconcile passes the cool-down
   early only inside the window of one panic mode: less than the window after the write of the earlier
   reconcile whose decision asked for it while it was off, or after the time stored when the run started
   with it on. No trigger in between restarts the clock.
   */
  lemma {:induction false} BypassIsBounded(cfg: Config, sys: System, inputs: seq<Input>, input: Input)
    returns (j: Option<nat>)
    requires PanicStored(Panic(sys.status))
    requires PassesEarly(Run(cfg, sys, inputs).status, input)
    ensures InsideWindowOf(cfg, sys, inputs, input, j)
  {
    RunMakesTrace(cfg, sys, inputs);
    j := EntryOf(PanicTrace(cfg, sys, inputs), inputs, Decisions(cfg, sys, inputs), |inputs|);
  }

  /**
   Two windows are separated by a reconcile that found the first one over and wrote panic mode off;
   if that reconcile had a panic window, the second write is at least that window after the first.
   */
  lemma {:induction false} WindowsAreSeparated(cfg: Config, sys: System, inputs: seq<Input>, i: nat,
                                               j: nat) returns (k: nat)
    requires PanicStored(Panic(sys.status)) && ForwardRun(inputs) && i < j < |inputs|
    requires TurnsOnAt(PanicTrace(cfg, sys, inputs), inputs, Decisions(cfg, sys, inputs), i)
    requires TurnsOnAt(PanicTrace(cfg, sys, inputs), inputs, Decisions(cfg, sys, inputs), j)
    ensures i < k < j && TurnsOffAt(PanicTrace(cfg, sys, inputs), inputs, k)
    ensures C.IsPanicModeConfigured(inputs[k].spec.strategy) ==>
              WholeSeconds(inputs[j].clock.panicSet)
              >= WholeSeconds(inputs[i].clock.panicSet) + C.PanicWindow(inputs[k].spec.strategy)
  {
    RunMakesTrace(cfg, sys, inputs);
    k := FirstOff(PanicTrace(cfg, sys, inputs), inputs, Decisions(cfg, sys, inputs), i + 1, j);
    if C.IsPanicModeConfigured(inputs[k].spec.strategy) {
      assert inputs[k].clock.ready <= inputs[j].clock.purge;
      WholeSecondsMonotone(inputs[i].clock.panicSet, inputs[k].spec.strategy.value.panicWindowSeconds.value,
                           inputs[j].clock.panicSet);
    }
  }

  lemma WholeSecondsMonotone(a: Time, seconds: int, b: Time)
    requires WholeSeconds(a) + seconds * SECOND <= b
    ensures WholeSeconds(a) + seconds * SECOND <= WholeSeconds(b)
  {
  }

  /** The windows opened by an entry written at `at` and by one with the entry's own time are the same. */
  lemma SameWindowIff(p: C.Condition, strategy: Option<C.Strategy>, at: Time)
    requires C.IsPanicModeConfigured(strategy) && p.kind == C.PanicMode && p.status == C.True
    ensures (forall t :: Live(p, strategy, t) <==> t - at < C.PanicWindow(strategy)) <==> p.lastTransition == at
  {
    var w := C.PanicWindow(strategy);
    assert Live(p, strategy, at + w - 1) <==> at + w - 1 - p.lastTransition < w;
    assert Live(p, strategy, at + w) <==> at + w - p.lastTransition < w;
  }

  /**
   A trigger opens a full window exactly when panic mode was off (or was written that very second): a
   trigger that finds a stale entry, on but past its window, is reported as panic mode yet leaves the
   old transition time, and with it no window.
   */
  lemma {:induction false} TriggerOpensWindowIff(cfg: Config, sys: System, input: Input)
    requires PanicStored(Panic(sys.status)) && input.statusPatchOk
    requires StepOf(cfg, sys, input).decision.Some? && StepOf(cfg, sys, input).requeue == AfterPanic
    ensures C.IsPanicModeConfigured(input.spec.strategy)
    ensures var before, after, at := Panic(sys.status), Panic(Next(cfg, sys,
                                                                   input).status), WholeSeconds(input.clock.panicSet);
            (forall t :: Live(after, input.spec.strategy, t) <==> t - at < C.PanicWindow(input.spec.strategy))
            <==> before.status != C.True || before.lastTransition == at
  {
    NextPanicMove(cfg, sys, input);
    TriggerTurnsOn(cfg, sys, input);
    SameWindowIff(Panic(Next(cfg, sys, input).status), input.spec.strategy, WholeSeconds(input.clock.panicSet));
  }
}
