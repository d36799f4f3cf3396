/**
 The Prometheus scaler, the replicator and the clamp in a loop under a constant metric and fixed bounds:
 where the replicas settle, and that they stay there.
 */
module ClosedLoop {
  import opened Common
  import opened Bounds
  import opened Prometheus
  import opened Replicator
  import opened Rounds

  datatype Loop = Loop(scaler: Scaler, settings: Settings, value: real, plant: Plant)

  datatype State = State(replicas: int, calls: seq<Call>)

  function RoundCall(l: Loop, replicas: int, t: Tick): Call
    requires l.settings.threshold > 0.0
  {
    CallOf(l.plant, replicas, Desired(l.scaler, l.settings, replicas, l.value), t)
  }

  ghost function Round(l: Loop, st: State, t: Tick): State
    requires l.settings.threshold > 0.0
  {
    var calls := st.calls + [RoundCall(l, st.replicas, t)];
    State(Held(l.plant, calls), calls)
  }

  ghost function Run(l: Loop, st: State, ticks: seq<Tick>): State
    requires l.settings.threshold > 0.0
  {
    if ticks == [] then st else Round(l, Run(l, st, ticks[..|ticks| - 1]), ticks[|ticks| - 1])
  }

  ghost predicate Steady(l: Loop) {
    l.settings.threshold > 0.0 && l.value > 0.0 && l.plant.Sane() && l.plant.min >= 1
  }

  /** The clock readings go on from the calls made so far. */
  ghost predicate ClockGoesOn(l: Loop, st: State, ticks: seq<Tick>)
    requires l.settings.threshold > 0.0
  {
    && ClockForward(Run(l, st, ticks).calls, l.plant.key)
    && forall i, j :: 0 <= i < j < |ticks| ==> ticks[i].now <= ticks[j].now
  }

  lemma {:induction false} ClockPrefix(l: Loop, st: State, ticks: seq<Tick>)
    requires l.settings.threshold > 0.0 && ticks != [] && ClockGoesOn(l, st, ticks)
    ensures ClockGoesOn(l, st, ticks[..|ticks| - 1])
  {
    var before := Run(l, st, ticks[..|ticks| - 1]);
    ClockBefore(before.calls, RoundCall(l, before.replicas, ticks[|ticks| - 1]), l.plant.key);
  }

  // ---------------------------------------------------------------- settled replicas

  /** The replicas are the clamped least count that carries the metric. */
  ghost predicate AtFixpoint(l: Loop, replicas: int)
    requires l.settings.threshold > 0.0
  {
    exists least :: IsLeastCover(least, l.value, l.settings.threshold)
                    && replicas == Clamp(least, l.plant.min, l.plant.max)
  }

  /** In bounds, and the clamped least count, or any count that leaves the metric in the scaler's band. */
  ghost predicate Settled(l: Loop, replicas: int)
    requires l.settings.threshold > 0.0
  {
    && l.plant.InBounds(replicas)
    && (AtFixpoint(l, replicas)
        || (replicas != 0 && InBand(l.value / replicas as real, l.settings.threshold, l.scaler.tolerance)))
  }

  /** At the fixpoint the scaler's own recommendation clamps to the replicas, in or out of its band. */
  lemma RecommendationClampsBack(l: Loop, replicas: int)
    requires Steady(l) && Settled(l, replicas)
    ensures Clamp(Desired(l.scaler, l.settings, replicas, l.value), l.plant.min, l.plant.max) == replicas
  {
    var n := Desired(l.scaler, l.settings, replicas, l.value);
    DesiredIsLeast(l.scaler, l.settings, replicas, l.value);
    if AtFixpoint(l, replicas) && IsLeastCover(n, l.value, l.settings.threshold) {
      var least :| IsLeastCover(least, l.value, l.settings.threshold)
                   && replicas == Clamp(least, l.plant.min, l.plant.max);
      LeastCoverUnique(n, least, l.value, l.settings.threshold);
    }
  }

  /** From any replicas in bounds the recommendation clamps to settled replicas. */
  lemma RecommendationSettles(l: Loop, replicas: int)
    requires Steady(l) && l.plant.InBounds(replicas)
    ensures Settled(l, Clamp(Desired(l.scaler, l.settings, replicas, l.value), l.plant.min, l.plant.max))
  {
    DesiredIsLeast(l.scaler, l.settings, replicas, l.value);
  }

  lemma {:induction false} RoundStays(l: Loop, st: State, t: Tick)
    requires Steady(l) && Settled(l, st.replicas)
    requires ClockForward(Round(l, st, t).calls, l.plant.key)
    requires NoneHigher(l.plant, st.calls, st.replicas, t.now - l.plant.window)
    ensures Round(l, st, t).replicas == st.replicas
    ensures NoneHigher(l.plant, Round(l, st, t).calls, st.replicas, t.now - l.plant.window)
  {
    var c := RoundCall(l, st.replicas, t);
    RecommendationClampsBack(l, st.replicas);
    FreshClamps(l.plant, st.replicas, Desired(l.scaler, l.settings, st.replicas, l.value), t);
    HeldAtLeast(l.plant, st.calls, c);
    HeldAtMost(l.plant, st.calls, c, st.replicas);
    var r := HeldIsTop(l.plant, st.calls, c);
  }

  /**
   Closed-loop stability: once the replicas are settled and no recommendation still in the window
   clamps higher, every later round leaves them unchanged.
   */
  lemma {:induction false} SettledIsStable(l: Loop, st: State, ticks: seq<Tick>)
    requires Steady(l) && Settled(l, st.replicas) && ClockGoesOn(l, st, ticks)
    requires ticks != [] ==> NoneHigher(l.plant, st.calls, st.replicas, ticks[0].now - l.plant.window)
    ensures Run(l, st, ticks).replicas == st.replicas
    ensures ticks != [] ==>
              NoneHigher(l.plant, Run(l, st, ticks).calls, st.replicas, ticks[|ticks| - 1].now - l.plant.window)
    decreases |ticks|
  {
    if ticks != [] {
      var front, t := ticks[..|ticks| - 1], ticks[|ticks| - 1];
      var before := Run(l, st, front);
      ClockPrefix(l, st, ticks);
      SettledIsStable(l, st, front);
      if front != [] {
        NoneHigherLater(l.plant, before.calls, st.replicas, front[|front| - 1].now - l.plant.window,
                        t.now - l.plant.window);
      }
      RoundStays(l, before, t);
    }
  }

  // ---------------------------------------------------------------- attraction

  /** Everything recommended after `start` clamps to settled replicas. */
  ghost predicate SettledSince(l: Loop, calls: seq<Call>, start: Time)
    requires l.settings.threshold > 0.0
  {
    forall r :: r in FullLog(calls, l.plant.key) && r.timestamp > start ==>
      Settled(l, Clamp(r.replicas, l.plant.min, l.plant.max))
  }

  lemma {:induction false} RoundSettlesSince(l: Loop, st: State, t: Tick, start: Time)
    requires Steady(l) && l.plant.InBounds(st.replicas) && SettledSince(l, st.calls, start)
    requires ClockForward(Round(l, st, t).calls, l.plant.key)
    requires FullLog(st.calls, l.plant.key) == [] ==> t.seedAt <= start
    ensures l.plant.InBounds(Round(l, st, t).replicas)
    ensures SettledSince(l, Round(l, st, t).calls, start)
    ensures t.now - l.plant.window > start ==> Settled(l, Round(l, st, t).replicas)
    ensures NoneHigher(l.plant, Round(l, st, t).calls, Round(l, st, t).replicas, t.now - l.plant.window)
  {
    var c := RoundCall(l, st.replicas, t);
    RecommendationSettles(l, st.replicas);
    FreshClamps(l.plant, st.replicas, Desired(l.scaler, l.settings, st.replicas, l.value), t);
    OneMoreLog(st.calls, c);
    forall r | r in FullLog(st.calls + [c], l.plant.key) && r.timestamp > start
      ensures Settled(l, Clamp(r.replicas, l.plant.min, l.plant.max))
    {
      assert r in FullLog(st.calls, l.plant.key) || r == c.Seed() || r == c.Fresh();
    }
    var r := HeldIsTop(l.plant, st.calls, c);
  }

  lemma {:induction false} RunSettlesSince(l: Loop, st: State, ticks: seq<Tick>)
    requires Steady(l) && l.plant.InBounds(st.replicas) && ClockGoesOn(l, st, ticks) && ticks != []
    ensures var after, t := Run(l, st, ticks), ticks[|ticks| - 1];
            && l.plant.InBounds(after.replicas)
            && SettledSince(l, after.calls, ticks[0].seedAt)
            && FullLog(after.calls, l.plant.key) != []
            && (t.now - l.plant.window > ticks[0].seedAt ==> Settled(l, after.replicas))
            && NoneHigher(l.plant, after.calls, after.replicas, t.now - l.plant.window)
    decreases |ticks|
  {
    var front, t := ticks[..|ticks| - 1], ticks[|ticks| - 1];
    var before := Run(l, st, front);
    var c := RoundCall(l, before.replicas, t);
    if front == [] {
      LogBeforeCall(st.calls, c);
    } else {
      ClockPrefix(l, st, ticks);
      RunSettlesSince(l, st, front);
    }
    RoundSettlesSince(l, before, t, ticks[0].seedAt);
    OneMoreLog(before.calls, c);
  }

  /** The rounds after the n-th are a run of their own. */
  lemma {:induction false} RunSplits(l: Loop, st: State, ticks: seq<Tick>, n: nat)
    requires l.settings.threshold > 0.0 && n <= |ticks|
    ensures Run(l, st, ticks) == Run(l, Run(l, st, ticks[..n]), ticks[n..])
    decreases |ticks|
  {
    if n == |ticks| {
      assert ticks[..n] == ticks && ticks[n..] == [];
    } else {
      var front := ticks[..|ticks| - 1];
      assert front[..n] == ticks[..n];
      assert ticks[n..][..|ticks[n..]| - 1] == front[n..];
      RunSplits(l, st, front, n);
    }
  }

  lemma {:induction false} ClockOfPrefix(l: Loop, st: State, ticks: seq<Tick>, n: nat)
    requires l.settings.threshold > 0.0 && n <= |ticks| && ClockGoesOn(l, st, ticks)
    ensures ClockGoesOn(l, st, ticks[..n])
    decreases |ticks|
  {
    if n == |ticks| {
      assert ticks[..n] == ticks;
    } else {
      assert ticks[..|ticks| - 1][..n] == ticks[..n];
      ClockPrefix(l, st, ticks);
      ClockOfPrefix(l, st, ticks[..|ticks| - 1], n);
    }
  }

  lemma {:induction false} ClockOfRest(l: Loop, st: State, ticks: seq<Tick>, n: nat)
    requires l.settings.threshold > 0.0 && n <= |ticks| && ClockGoesOn(l, st, ticks)
    ensures ClockGoesOn(l, Run(l, st, ticks[..n]), ticks[n..])
  {
    RunSplits(l, st, ticks, n);
    forall i, j | 0 <= i < j < |ticks[n..]| ensures ticks[n..][i].now <= ticks[n..][j].now {
      assert ticks[n..][i] == ticks[n + i] && ticks[n..][j] == ticks[n + j];
    }
  }

  /** Settled after a round means settled for the rest of the run. */
  lemma {:induction false} SettledForGood(l: Loop, st: State, ticks: seq<Tick>, cutoff: Time)
    requires Steady(l) && Settled(l, st.replicas) && ClockGoesOn(l, st, ticks)
    requires NoneHigher(l.plant, st.calls, st.replicas, cutoff)
    requires ticks != [] ==> cutoff <= ticks[0].now - l.plant.window
    ensures Run(l, st, ticks).replicas == st.replicas
  {
    if ticks != [] {
      NoneHigherLater(l.plant, st.calls, st.replicas, cutoff, ticks[0].now - l.plant.window);
    }
    SettledIsStable(l, st, ticks);
  }

  /**
   Attraction: from any replicas in bounds and any history, the first round that is more than a window
   after the start leaves the replicas settled, and no later round changes them.
   */
  lemma {:induction false} SettlesWithinAWindow(l: Loop, st: State, ticks: seq<Tick>, k: nat)
    requires Steady(l) && l.plant.InBounds(st.replicas) && ClockGoesOn(l, st, ticks)
    requires k < |ticks| && ticks[k].now > ticks[0].seedAt + l.plant.window
    ensures Settled(l, Run(l, st, ticks[..k + 1]).replicas)
    ensures Run(l, st, ticks).replicas == Run(l, st, ticks[..k + 1]).replicas
  {
    var head := ticks[..k + 1];
    ClockOfPrefix(l, st, ticks, k + 1);
    RunSettlesSince(l, st, head);
    RunSplits(l, st, ticks, k + 1);
    ClockOfRest(l, st, ticks, k + 1);
    SettledForGood(l, Run(l, st, head), ticks[k + 1..], ticks[k].now - l.plant.window);
  }
}
