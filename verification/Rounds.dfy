/**
 What the replicator and the clamp make of one recommendation per round, when each round's replicas are
 what the next round observes.
 */
module Rounds {
  import opened Common
  import opened Bounds
  import opened Replicator

  /** An autoscaler with one target and fixed bounds. */
  datatype Plant = Plant(window: int, min: int, max: int, key: string, metric: string)
  {
    predicate Sane() {
      window >= 0 && 0 <= min <= max
    }

    predicate InBounds(replicas: int) {
      min <= replicas <= max
    }
  }

  /** The clock readings of one round. */
  datatype Tick = Tick(seedAt: Time, now: Time, stampedAt: Time)

  function CallOf(p: Plant, replicas: int, desired: int, t: Tick): Call {
    Call(p.key, replicas, map[p.metric := desired], t.seedAt, t.now, t.stampedAt)
  }

  /** The replicas that the last call of a run leads to. */
  ghost function Held(p: Plant, calls: seq<Call>): int
    requires calls != []
  {
    Clamp(LastAnswer(calls, p.window), p.min, p.max)
  }

  /** Nothing recommended at or after the cutoff clamps above the level. */
  ghost predicate NoneHigher(p: Plant, calls: seq<Call>, level: int, cutoff: Time) {
    forall r :: r in FullLog(calls, p.key) && r.timestamp >= cutoff ==> Clamp(r.replicas, p.min, p.max) <= level
  }

  lemma {:induction false} SingleOutput(metric: string, d: int)
    ensures MaxOutput(map[metric := d]) == Max(0, d)
  {
    var outputs := map[metric := d];
    assert metric in outputs && outputs[metric] == d;
    MaxOutputUnique(Max(0, d), outputs);
  }

  /** Between bounds that are not negative a recommendation clamps as the scaler's answer does. */
  lemma {:induction false} FreshClamps(p: Plant, replicas: int, desired: int, t: Tick)
    requires p.Sane()
    ensures CallOf(p, replicas, desired, t).Fresh() == Recommendation(t.stampedAt, Max(0, desired))
    ensures Clamp(Max(0, desired), p.min, p.max) == Clamp(desired, p.min, p.max)
  {
    SingleOutput(p.metric, desired);
  }

  lemma {:induction false} OneMoreLog(calls: seq<Call>, c: Call)
    ensures FullLog(calls + [c], c.key) ==
            (if FullLog(calls, c.key) == [] then [c.Seed()] else FullLog(calls, c.key)) + [c.Fresh()]
  {
    assert (calls + [c])[..|calls|] == calls;
  }

  /** The answer is the clamp of some recommendation of the window, and of the highest one. */
  lemma {:induction false} HeldIsTop(p: Plant, calls: seq<Call>, c: Call) returns (r: Recommendation)
    requires p.window >= 0 && c.key == p.key && ClockForward(calls + [c], p.key)
    ensures r in FullLog(calls + [c], p.key) && r.timestamp >= c.now - p.window
    ensures Held(p, calls + [c]) == Clamp(r.replicas, p.min, p.max)
    ensures NoneHigher(p, calls + [c], Held(p, calls + [c]), c.now - p.window)
  {
    var all, cutoff := calls + [c], c.now - p.window;
    var log, answer := FullLog(all, p.key), LastAnswer(all, p.window);
    assert all[|calls|] == c;
    BufferRefinesLog(all, p.window);
    r :| r in log && r.timestamp >= cutoff && r.replicas == answer;
    forall x | x in log && x.timestamp >= cutoff ensures Clamp(x.replicas, p.min, p.max) <= Held(p, all) {
      ClampMonotone(x.replicas, answer, p.min, p.max);
    }
  }

  /** The replicas are held no lower than the round's own recommendation. */
  lemma {:induction false} HeldAtLeast(p: Plant, calls: seq<Call>, c: Call)
    requires p.window >= 0 && c.key == p.key && ClockForward(calls + [c], p.key)
    ensures Held(p, calls + [c]) >= Clamp(c.Fresh().replicas, p.min, p.max)
  {
    var r := HeldIsTop(p, calls, c);
    OneMoreLog(calls, c);
    assert (calls + [c])[|calls|] == c;
    assert c.Fresh() in FullLog(calls + [c], p.key);
  }

  /** And no higher than a level above which nothing of the window, nor the round itself, clamps. */
  lemma {:induction false} HeldAtMost(p: Plant, calls: seq<Call>, c: Call, level: int)
    requires p.window >= 0 && c.key == p.key && ClockForward(calls + [c], p.key)
    requires NoneHigher(p, calls, level, c.now - p.window)
    requires Clamp(c.specReplicas, p.min, p.max) <= level && Clamp(c.Fresh().replicas, p.min, p.max) <= level
    ensures Held(p, calls + [c]) <= level
  {
    var r := HeldIsTop(p, calls, c);
    OneMoreLog(calls, c);
    assert r in FullLog(calls, p.key) || r == c.Seed() || r == c.Fresh();
  }

  lemma {:induction false} ClockBefore(calls: seq<Call>, c: Call, key: string)
    requires ClockForward(calls + [c], key)
    ensures ClockForward(calls, key)
  {
    var all := calls + [c];
    assert forall i :: 0 <= i < |calls| ==> all[i] == calls[i];
  }

  /** What is in the log when a further call seeds itself is no younger than that seed. */
  lemma {:induction false} LogNotAfter(calls: seq<Call>, key: string, latest: Time)
    requires ClockForward(calls, key)
    requires forall i :: 0 <= i < |calls| && calls[i].key == key ==> calls[i].stampedAt <= latest
    ensures forall r :: r in FullLog(calls, key) ==> r.timestamp <= latest
  {
    if calls != [] {
      LogNotAfter(calls[..|calls| - 1], key, latest);
    }
  }

  lemma {:induction false} LogBeforeCall(calls: seq<Call>, c: Call)
    requires ClockForward(calls + [c], c.key)
    ensures forall r :: r in FullLog(calls, c.key) ==> r.timestamp <= c.seedAt
  {
    var all := calls + [c];
    assert forall i :: 0 <= i < |calls| ==> all[i] == calls[i];
    assert all[|calls|] == c;
    ClockBefore(calls, c, c.key);
    LogNotAfter(calls, c.key, c.seedAt);
  }

  lemma {:induction false} NoneHigherLater(p: Plant, calls: seq<Call>, level: int, cutoff: Time, later: Time)
    requires NoneHigher(p, calls, level, cutoff) && cutoff <= later
    ensures NoneHigher(p, calls, level, later)
  {
  }
}
