/**
 Runs through an outage under FailAsLastValue: every query fails, the scaler answers from the stored
 average, the controller purges the status list, and the replicator and the clamp hold the replicas.
 */
module Outage {
  import opened Common
  import opened Bounds
  import opened TargetStatuses
  import opened Prometheus
  import opened Replicator
  import opened Rounds

  datatype Loop = Loop(scaler: Scaler, settings: Settings, plant: Plant)

  datatype State = State(replicas: int, targets: Targets, calls: seq<Call>)

  /** A failed query: the value that came with the error, and the clock readings of its round. */
  datatype Failure = Failure(value: real, tick: Tick)

  /** One round of reconciling: an error of the scaler ends it before the purge and the replicator. */
  ghost function Round(l: Loop, st: State, f: Failure): State
    requires l.settings.threshold > 0.0
  {
    var o := Calculate(l.scaler, l.settings, st.replicas, Failed(f.value), st.targets);
    match o.result
    case Err(_) => State(st.replicas, o.targets, st.calls)
    case Ok(output) =>
      var calls := st.calls + [CallOf(l.plant, st.replicas, output.desiredReplicas, f.tick)];
      State(Held(l.plant, calls), Purge(output.managed, o.targets), calls)
  }

  ghost function Run(l: Loop, st: State, fs: seq<Failure>): State
    requires l.settings.threshold > 0.0
  {
    if fs == [] then st else Round(l, Run(l, st, fs[..|fs| - 1]), fs[|fs| - 1])
  }

  /** Fail over to the stored average, between bounds that do not cross, with a clock that goes on. */
  ghost predicate OutageRun(l: Loop, st: State, fs: seq<Failure>) {
    && l.settings.threshold > 0.0
    && l.settings.failureMode == FailAsLastValue
    && l.plant.Sane()
    && ClockForward(Run(l, st, fs).calls, l.plant.key)
    && forall i, j :: 0 <= i < j < |fs| ==> fs[i].tick.now <= fs[j].tick.now
  }

  /** The client never errs with zero. */
  ghost predicate NeverZero(fs: seq<Failure>) {
    forall i :: 0 <= i < |fs| ==> fs[i].value != 0.0
  }

  ghost predicate Holds(st: State, name: string, milli: int) {
    && Lookup(st.targets, name).Some?
    && Lookup(st.targets, name).value.metric.averageValueMilli == Some(milli)
  }

  /** In bounds; with the stored average intact while anything runs, and nothing to revive it otherwise. */
  ghost predicate Sound(l: Loop, st: State, milli: int, cutoff: Time) {
    && l.plant.InBounds(st.replicas)
    && (st.replicas != 0 ==> Holds(st, l.settings.targetName, milli))
    && (st.replicas == 0 ==> NoneHigher(l.plant, st.calls, 0, cutoff))
  }

  function Average(milli: int): real {
    milli as real / 1000.0
  }

  /** The stored average calls for more replicas. */
  predicate AboveBand(l: Loop, milli: int)
    requires l.settings.threshold > 0.0
  {
    Average(milli) > l.settings.threshold && !InBand(Average(milli), l.settings.threshold, l.scaler.tolerance)
  }

  // ---------------------------------------------------------------- one round

  /** Replicas scale up at or above the threshold, and down at or below it. */
  lemma ScaledDirection(average: real, threshold: real, n: nat)
    requires threshold > 0.0
    ensures average >= threshold ==> Scaled(average, threshold, n) >= n
    ensures average <= threshold ==> Scaled(average, threshold, n) <= n
    ensures average > threshold && n > 0 ==> Scaled(average, threshold, n) > n
  {
    var k, value := Scaled(average, threshold, n), average * n as real;
    ScaledIsLeast(average, threshold, n, value);
    Between(average, threshold, n, value);
    CarriedOrder(n, k, threshold);
    CarriedOrder(k, n, threshold);
    CarriedOrder(k - 1, n, threshold);
  }

  lemma Between(average: real, threshold: real, n: nat, value: real)
    requires value == average * n as real
    ensures average >= threshold ==> value >= Carried(n, threshold)
    ensures average <= threshold ==> value <= Carried(n, threshold)
    ensures average > threshold && n > 0 ==> value > Carried(n, threshold)
  {
    if n > 0 {
      SameScale(average, threshold, n as real, value, Carried(n, threshold));
    }
  }

  lemma SameScale(a: real, b: real, k: real, ak: real, kb: real)
    requires k > 0.0 && ak == a * k && kb == k * b
    ensures a > b <==> ak > kb
    ensures a < b <==> ak < kb
  {
    assert kb == b * k;
    ScaleOrder(b, a, k);
    ScaleOrder(a, b, k);
  }

  /** What a failed query recommends from the stored average. */
  function Recommended(l: Loop, replicas: int, milli: int, value: real): int
    requires l.settings.threshold > 0.0
  {
    if replicas == 0 || value == 0.0 then 0
    else FromAverage(Average(milli), l.settings.threshold, l.scaler.tolerance, replicas)
  }

  /** A round of a sound state makes a call, and leaves the stored average while anything runs. */
  lemma {:induction false} RoundCalls(l: Loop, st: State, f: Failure, milli: int, cutoff: Time)
    requires l.settings.threshold > 0.0 && l.settings.failureMode == FailAsLastValue && Sound(l, st, milli, cutoff)
    ensures var calls := st.calls + [CallOf(l.plant, st.replicas, Recommended(l, st.replicas, milli, f.value), f.tick)];
            && Round(l, st, f).calls == calls
            && Round(l, st, f).replicas == Held(l.plant, calls)
    ensures st.replicas != 0 ==> Holds(Round(l, st, f), l.settings.targetName, milli)
  {
    if st.replicas != 0 {
      LookupAfterPurge([l.settings.targetName], st.targets, l.settings.targetName);
    }
  }

  lemma {:induction false} RoundKeepsSound(l: Loop, st: State, f: Failure, milli: int, cutoff: Time)
    requires l.settings.threshold > 0.0 && l.settings.failureMode == FailAsLastValue && l.plant.Sane()
    requires Sound(l, st, milli, cutoff) && cutoff <= f.tick.now - l.plant.window
    requires ClockForward(Round(l, st, f).calls, l.plant.key)
    ensures Sound(l, Round(l, st, f), milli, f.tick.now - l.plant.window)
    ensures NoneHigher(l.plant, Round(l, st, f).calls, Round(l, st, f).replicas, f.tick.now - l.plant.window)
    ensures Round(l, st, f).replicas
            >= Clamp(Recommended(l, st.replicas, milli, f.value), l.plant.min, l.plant.max)
  {
    var c := CallOf(l.plant, st.replicas, Recommended(l, st.replicas, milli, f.value), f.tick);
    RoundCalls(l, st, f, milli, cutoff);
    FreshClamps(l.plant, st.replicas, Recommended(l, st.replicas, milli, f.value), f.tick);
    HeldAtLeast(l.plant, st.calls, c);
    var r := HeldIsTop(l.plant, st.calls, c);
    if st.replicas == 0 {
      NoneHigherLater(l.plant, st.calls, 0, cutoff, f.tick.now - l.plant.window);
      HeldAtMost(l.plant, st.calls, c, 0);
    }
  }

  /** With nothing higher in the window a round raises the replicas only above the band. */
  lemma {:induction false} RoundHolds(l: Loop, st: State, f: Failure, milli: int, cutoff: Time)
    requires l.settings.threshold > 0.0 && l.settings.failureMode == FailAsLastValue && l.plant.Sane()
    requires Sound(l, st, milli, cutoff) && cutoff <= f.tick.now - l.plant.window
    requires ClockForward(Round(l, st, f).calls, l.plant.key)
    requires NoneHigher(l.plant, st.calls, st.replicas, cutoff) && !AboveBand(l, milli)
    ensures Round(l, st, f).replicas <= st.replicas
  {
    var desired := Recommended(l, st.replicas, milli, f.value);
    RoundCalls(l, st, f, milli, cutoff);
    ScaledDirection(Average(milli), l.settings.threshold, st.replicas);
    FreshClamps(l.plant, st.replicas, desired, f.tick);
    ClampMonotone(desired, st.replicas, l.plant.min, l.plant.max);
    NoneHigherLater(l.plant, st.calls, st.replicas, cutoff, f.tick.now - l.plant.window);
    HeldAtMost(l.plant, st.calls, CallOf(l.plant, st.replicas, desired, f.tick), st.replicas);
  }

  /** At or above the threshold a round never lowers them; above the band it raises them by one at least. */
  lemma {:induction false} RoundRaises(l: Loop, st: State, f: Failure, milli: int, cutoff: Time)
    requires l.settings.threshold > 0.0 && l.settings.failureMode == FailAsLastValue && l.plant.Sane()
    requires Sound(l, st, milli, cutoff) && cutoff <= f.tick.now - l.plant.window
    requires ClockForward(Round(l, st, f).calls, l.plant.key)
    requires Average(milli) >= l.settings.threshold && f.value != 0.0
    ensures Round(l, st, f).replicas >= st.replicas
    ensures AboveBand(l, milli) && 0 < st.replicas < l.plant.max ==> Round(l, st, f).replicas > st.replicas
  {
    var desired := Recommended(l, st.replicas, milli, f.value);
    RoundKeepsSound(l, st, f, milli, cutoff);
    ScaledDirection(Average(milli), l.settings.threshold, st.replicas);
    ClampMonotone(st.replicas, desired, l.plant.min, l.plant.max);
    if desired > st.replicas {
      ClampMonotone(st.replicas + 1, desired, l.plant.min, l.plant.max);
    }
  }

  // ---------------------------------------------------------------- whole outages

  /** The cutoff that the next failure, or the last one of the run, has reached. */
  function CutoffOf(l: Loop, f: Failure): Time {
    f.tick.now - l.plant.window
  }

  lemma {:induction false} OutagePrefix(l: Loop, st: State, fs: seq<Failure>)
    requires OutageRun(l, st, fs) && fs != []
    ensures OutageRun(l, st, fs[..|fs| - 1])
  {
    var front, f := fs[..|fs| - 1], fs[|fs| - 1];
    var before, after := Run(l, st, front), Run(l, st, fs);
    if after.calls != before.calls {
      ClockBefore(before.calls, after.calls[|after.calls| - 1], l.plant.key);
    }
  }

  /**
   Over every outage run the replicas stay in bounds, the stored average is never changed while anything
   runs, and from the first round on nothing of the window clamps above the replicas.
   */
  lemma {:induction false} OutageKeepsAverage(l: Loop, st: State, fs: seq<Failure>, milli: int)
    requires OutageRun(l, st, fs) && fs != [] && Sound(l, st, milli, CutoffOf(l, fs[0]))
    ensures var after, cutoff := Run(l, st, fs), CutoffOf(l, fs[|fs| - 1]);
            Sound(l, after, milli, cutoff) && NoneHigher(l.plant, after.calls, after.replicas, cutoff)
    decreases |fs|
  {
    var front, f := fs[..|fs| - 1], fs[|fs| - 1];
    if front == [] {
      assert Run(l, st, fs) == Round(l, Run(l, st, []), f);
      RoundKeepsSound(l, st, f, milli, CutoffOf(l, f));
    } else {
      OutagePrefix(l, st, fs);
      OutageKeepsAverage(l, st, front, milli);
      RoundKeepsSound(l, Run(l, st, front), f, milli, CutoffOf(l, front[|front| - 1]));
    }
  }

  /** The state before the last failure is sound by then. */
  lemma {:induction false} BeforeLast(l: Loop, st: State, fs: seq<Failure>, milli: int) returns (cutoff: Time)
    requires OutageRun(l, st, fs) && fs != [] && Sound(l, st, milli, CutoffOf(l, fs[0]))
    ensures cutoff <= CutoffOf(l, fs[|fs| - 1]) && Sound(l, Run(l, st, fs[..|fs| - 1]), milli, cutoff)
    ensures NoneHigher(l.plant, st.calls, st.replicas, CutoffOf(l, fs[0])) ==>
              var before := Run(l, st, fs[..|fs| - 1]);
              NoneHigher(l.plant, before.calls, before.replicas, cutoff)
    ensures ClockForward(Round(l, Run(l, st, fs[..|fs| - 1]), fs[|fs| - 1]).calls, l.plant.key)
  {
    var front := fs[..|fs| - 1];
    if front == [] {
      cutoff := CutoffOf(l, fs[0]);
    } else {
      OutagePrefix(l, st, fs);
      OutageKeepsAverage(l, st, front, milli);
      cutoff := CutoffOf(l, front[|front| - 1]);
    }
  }

  /** At or above the threshold the replicas of an outage run never fall, whatever is in the window. */
  lemma {:induction false} OutageNeverFalls(l: Loop, st: State, fs: seq<Failure>, i: nat, milli: int)
    requires OutageRun(l, st, fs) && (fs != [] ==> Sound(l, st, milli, CutoffOf(l, fs[0]))) && i <= |fs|
    requires NeverZero(fs) && Average(milli) >= l.settings.threshold
    ensures Run(l, st, fs[..i]).replicas <= Run(l, st, fs).replicas
    decreases |fs|
  {
    if i == |fs| {
      assert fs[..i] == fs;
    } else {
      var front := fs[..|fs| - 1];
      assert front[..i] == fs[..i];
      OutagePrefix(l, st, fs);
      OutageNeverFalls(l, st, front, i, milli);
      var cutoff := BeforeLast(l, st, fs, milli);
      RoundRaises(l, Run(l, st, front), fs[|fs| - 1], milli, cutoff);
    }
  }

  /** Up to the upper edge of the band they never rise, if nothing in the window is higher at the start. */
  lemma {:induction false} OutageNeverRises(l: Loop, st: State, fs: seq<Failure>, i: nat, milli: int)
    requires OutageRun(l, st, fs) && i <= |fs| && !AboveBand(l, milli)
    requires fs != [] ==> Sound(l, st, milli, CutoffOf(l, fs[0]))
                          && NoneHigher(l.plant, st.calls, st.replicas, CutoffOf(l, fs[0]))
    ensures Run(l, st, fs[..i]).replicas >= Run(l, st, fs).replicas
    decreases |fs|
  {
    if i == |fs| {
      assert fs[..i] == fs;
    } else {
      var front := fs[..|fs| - 1];
      assert front[..i] == fs[..i];
      OutagePrefix(l, st, fs);
      OutageNeverRises(l, st, front, i, milli);
      var cutoff := BeforeLast(l, st, fs, milli);
      RoundHolds(l, Run(l, st, front), fs[|fs| - 1], milli, cutoff);
    }
  }

  /**
   The stored average is per replica and is not rescaled, so a last average above the band drives the
   replicas up at every failed query, all the way to the upper bound.
   */
  lemma {:induction false} OutageRunsAway(l: Loop, st: State, fs: seq<Failure>, milli: int)
    requires OutageRun(l, st, fs) && (fs != [] ==> Sound(l, st, milli, CutoffOf(l, fs[0])))
    requires l.plant.InBounds(st.replicas) && NeverZero(fs) && st.replicas > 0 && AboveBand(l, milli)
    ensures Run(l, st, fs).replicas
            >= if st.replicas + |fs| < l.plant.max then st.replicas + |fs| else l.plant.max
  {
    if fs != [] {
      var front := fs[..|fs| - 1];
      OutagePrefix(l, st, fs);
      OutageRunsAway(l, st, front, milli);
      var cutoff := BeforeLast(l, st, fs, milli);
      RoundRaises(l, Run(l, st, front), fs[|fs| - 1], milli, cutoff);
    }
  }

  /**
   Exactly then: with replicas below the upper bound and nothing higher in the window, an outage of one
   failed query or more raises them if and only if some run and the stored average is above the band.
   */
  lemma {:induction false} OutageRaisesIff(l: Loop, st: State, fs: seq<Failure>, milli: int)
    requires OutageRun(l, st, fs) && fs != [] && NeverZero(fs)
    requires Sound(l, st, milli, CutoffOf(l, fs[0])) && st.replicas < l.plant.max
    requires NoneHigher(l.plant, st.calls, st.replicas, CutoffOf(l, fs[0]))
    ensures Run(l, st, fs).replicas > st.replicas <==> st.replicas > 0 && AboveBand(l, milli)
  {
    assert fs[..0] == [];
    if st.replicas > 0 && AboveBand(l, milli) {
      OutageRunsAway(l, st, fs, milli);
    } else if !AboveBand(l, milli) {
      OutageNeverRises(l, st, fs, 0, milli);
    } else {
      NothingRevives(l, st, fs, milli);
    }
  }

  /** What was scaled to zero stays there. */
  lemma {:induction false} NothingRevives(l: Loop, st: State, fs: seq<Failure>, milli: int)
    requires OutageRun(l, st, fs) && (fs != [] ==> Sound(l, st, milli, CutoffOf(l, fs[0])))
    requires st.replicas == 0 && l.plant.InBounds(0)
    ensures Run(l, st, fs).replicas == 0
    decreases |fs|
  {
    if fs != [] {
      var front, f := fs[..|fs| - 1], fs[|fs| - 1];
      var before := Run(l, st, front);
      OutagePrefix(l, st, fs);
      NothingRevives(l, st, front, milli);
      var cutoff := BeforeLast(l, st, fs, milli);
      var c := CallOf(l.plant, 0, 0, f.tick);
      RoundCalls(l, before, f, milli, cutoff);
      FreshClamps(l.plant, 0, 0, f.tick);
      NoneHigherLater(l.plant, before.calls, 0, cutoff, CutoffOf(l, f));
      HeldAtMost(l.plant, before.calls, c, 0);
      HeldAtLeast(l.plant, before.calls, c);
    }
  }

  // ---------------------------------------------------------------- a client that errs with zero

  /** Everything recommended after `start` clamps to the lower bound. */
  ghost predicate LowSince(l: Loop, calls: seq<Call>, start: Time) {
    forall r :: r in FullLog(calls, l.plant.key) && r.timestamp > start ==>
      Clamp(r.replicas, l.plant.min, l.plant.max) == l.plant.min
  }

  lemma {:induction false} ZeroErrorRound(l: Loop, st: State, f: Failure, milli: int, cutoff: Time, start: Time)
    requires l.settings.threshold > 0.0 && l.settings.failureMode == FailAsLastValue && l.plant.Sane()
    requires Sound(l, st, milli, cutoff) && f.value == 0.0 && LowSince(l, st.calls, start)
    requires ClockForward(Round(l, st, f).calls, l.plant.key)
    requires FullLog(st.calls, l.plant.key) == [] ==> f.tick.seedAt <= start
    ensures LowSince(l, Round(l, st, f).calls, start) && FullLog(Round(l, st, f).calls, l.plant.key) != []
    ensures CutoffOf(l, f) > start ==> Round(l, st, f).replicas == l.plant.min
  {
    var c := CallOf(l.plant, st.replicas, 0, f.tick);
    RoundCalls(l, st, f, milli, cutoff);
    FreshClamps(l.plant, st.replicas, 0, f.tick);
    OneMoreLog(st.calls, c);
    forall r | r in FullLog(st.calls + [c], l.plant.key) && r.timestamp > start
      ensures Clamp(r.replicas, l.plant.min, l.plant.max) == l.plant.min
    {
      assert r in FullLog(st.calls, l.plant.key) || r == c.Seed() || r == c.Fresh();
    }
    var r := HeldIsTop(l.plant, st.calls, c);
  }

  /**
   Why the client must not err with zero: such errors read as an idle system, and once the outage is a
   window old the replicas are at the lower bound, whatever the stored average says.
   */
  lemma {:induction false} ZeroErrorsDrain(l: Loop, st: State, fs: seq<Failure>, milli: int)
    requires OutageRun(l, st, fs) && fs != [] && Sound(l, st, milli, CutoffOf(l, fs[0]))
    requires forall i :: 0 <= i < |fs| ==> fs[i].value == 0.0
    ensures LowSince(l, Run(l, st, fs).calls, fs[0].tick.seedAt) && FullLog(Run(l, st, fs).calls, l.plant.key) != []
    ensures CutoffOf(l, fs[|fs| - 1]) > fs[0].tick.seedAt ==> Run(l, st, fs).replicas == l.plant.min
    decreases |fs|
  {
    var front, f := fs[..|fs| - 1], fs[|fs| - 1];
    var cutoff := BeforeLast(l, st, fs, milli);
    if front == [] {
      RoundCalls(l, st, f, milli, cutoff);
      LogBeforeCall(st.calls, CallOf(l.plant, st.replicas, 0, f.tick));
    } else {
      OutagePrefix(l, st, fs);
      ZeroErrorsDrain(l, st, front, milli);
    }
    ZeroErrorRound(l, Run(l, st, front), f, milli, cutoff, fs[0].tick.seedAt);
  }
}
