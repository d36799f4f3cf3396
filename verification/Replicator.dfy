/**
 The "simple" replicator: it takes the largest scaler output and holds it up by the largest
 recommendation of the last stabilisation window.  The recommendations of each autoscaler live in
 a compacted buffer in which a new recommendation overwrites an expired one.
 */
module Replicator {
  import opened Common

  datatype Recommendation = Recommendation(timestamp: Time, replicas: int)

  type Buffer = seq<Recommendation>
  type History = map<string, Buffer>

  /** One call of GetDesiredReplicas, with the instants at which it reads the clock. */
  datatype Call = Call(
    key: string, specReplicas: int, outputs: map<string, int>,
    seedAt: Time, now: Time, stampedAt: Time)
  {
    function Seed(): Recommendation {
      Recommendation(seedAt, specReplicas)
    }

    ghost function Fresh(): Recommendation {
      Recommendation(stampedAt, MaxOutput(outputs))
    }
  }

  function UniqueKey(name: string, namespace: string): string {
    name + "/" + namespace
  }

  // ---------------------------------------------------------------- one call

  /** The largest output, or zero when every output is below zero. */
  ghost predicate IsMaxOutput(m: int, outputs: map<string, int>) {
    && m >= 0
    && (forall k :: k in outputs ==> outputs[k] <= m)
    && (m == 0 || exists k :: k in outputs && outputs[k] == m)
  }

  ghost function MaxOutput(outputs: map<string, int>): (m: int)
    ensures IsMaxOutput(m, outputs)
  {
    MaxOutputExists(outputs);
    var m :| IsMaxOutput(m, outputs);
    m
  }

  lemma {:induction false} MaxOutputExists(outputs: map<string, int>)
    ensures exists m :: IsMaxOutput(m, outputs)
    decreases |outputs|
  {
    if outputs.Keys == {} {
      assert IsMaxOutput(0, outputs);
    } else {
      var k :| k in outputs;
      var rest := outputs - {k};
      assert rest.Keys == outputs.Keys - {k};
      assert |rest.Keys| < |outputs.Keys|;
      MaxOutputExists(rest);
      var m :| IsMaxOutput(m, rest);
      assert forall j :: j in outputs ==> j == k || (j in rest && rest[j] == outputs[j]);
      assert IsMaxOutput(Max(m, outputs[k]), outputs);
    }
  }

  /** The largest of `base` and the entries stamped at or after the cutoff. */
  function Highest(b: Buffer, cutoff: Time, base: int): int {
    if b == [] then base
    else
      var m := Highest(b[..|b| - 1], cutoff, base);
      var r := b[|b| - 1];
      if r.timestamp >= cutoff && r.replicas > m then r.replicas else m
  }

  /** The slot to reuse: the last entry stamped before the cutoff. */
  function LastExpired(b: Buffer, cutoff: Time): (slot: Option<nat>)
    ensures slot.Some? ==> slot.value < |b| && b[slot.value].timestamp < cutoff
                           && forall i :: slot.value < i < |b| ==> b[i].timestamp >= cutoff
    ensures slot.None? ==> forall i :: 0 <= i < |b| ==> b[i].timestamp >= cutoff
  {
    if b == [] then None
    else if b[|b| - 1].timestamp < cutoff then Some(|b| - 1)
    else LastExpired(b[..|b| - 1], cutoff)
  }

  function Record(b: Buffer, r: Recommendation, cutoff: Time): Buffer {
    match LastExpired(b, cutoff)
    case Some(i) => b[i := r]
    case None => b + [r]
  }

  function Seeded(h: History, c: Call): (s: History)
    ensures c.key in s
  {
    if c.key in h then h else h[c.key := [c.Seed()]]
  }

  ghost function Answer(h: History, window: int, c: Call): int {
    Highest(Seeded(h, c)[c.key], c.now - window, c.Fresh().replicas)
  }

  ghost function Apply(h: History, window: int, c: Call): History {
    var s := Seeded(h, c);
    s[c.key := Record(s[c.key], c.Fresh(), c.now - window)]
  }

  /** The replicator plugin object. */
  class SimpleReplicator {
    const window: int
    var history: History

    constructor (window: int)
      ensures this.window == window && history == map[]
    {
      this.window := window;
      history := map[];
    }

    method StabilizeRecommendation(key: string, normalized: int, now: Time, stampedAt: Time)
      returns (max: int)
      modifies this
      ensures var b := if key in old(history) then old(history)[key] else [];
              && max == Highest(b, now - window, normalized)
              && history == old(history)[key := Record(b, Recommendation(stampedAt, normalized), now - window)]
    {
      max := normalized;
      var found, slot := false, 0;
      var cutoff := now - window;
      var b := if key in history then history[key] else [];
      for i := 0 to |b|
        invariant max == Highest(b[..i], cutoff, normalized)
        invariant LastExpired(b[..i], cutoff) == if found then Some(slot) else None
        invariant found ==> 0 <= slot < i
      {
        assert b[..i + 1][..i] == b[..i];
        if b[i].timestamp < cutoff {
          found, slot := true, i;
        } else if b[i].replicas > max {
          max := b[i].replicas;
        }
      }
      assert b[..|b|] == b;
      if found {
        history := history[key := b[slot := Recommendation(stampedAt, normalized)]];
      } else {
        history := history[key := b + [Recommendation(stampedAt, normalized)]];
      }
    }

    method GetDesiredReplicas(name: string, namespace: string, c: Call) returns (desired: int)
      requires c.key == UniqueKey(name, namespace)
      modifies this
      ensures desired == Answer(old(history), window, c)
      ensures history == Apply(old(history), window, c)
    {
      var key := UniqueKey(name, namespace);
      if key !in history {
        history := history[key := [c.Seed()]];
      }
      desired := 0;
      var pending := c.outputs.Keys;
      while pending != {}
        invariant pending <= c.outputs.Keys
        invariant desired >= 0
        invariant forall k :: k in c.outputs.Keys - pending ==> c.outputs[k] <= desired
        invariant desired == 0 || exists k :: k in c.outputs && c.outputs[k] == desired
        decreases |pending|
      {
        var scaler :| scaler in pending;
        if c.outputs[scaler] > desired {
          desired := c.outputs[scaler];
        }
        pending := pending - {scaler};
      }
      MaxOutputUnique(desired, c.outputs);
      desired := StabilizeRecommendation(key, desired, c.now, c.stampedAt);
    }
  }

  lemma {:induction false} MaxOutputUnique(m: int, outputs: map<string, int>)
    requires IsMaxOutput(m, outputs)
    ensures m == MaxOutput(outputs)
  {
    var n := MaxOutput(outputs);
    if n != 0 {
      var k :| k in outputs && outputs[k] == n;
    }
  }

  /**
   What a call adds to the log: at its instant the largest of its outputs, none of which counts below zero;
   and before its autoscaler's first call the replicas of then.
   */
  lemma CallRecords(c: Call)
    ensures c.Seed() == Recommendation(c.seedAt, c.specReplicas) && c.Fresh().timestamp == c.stampedAt
    ensures var r := c.Fresh().replicas;
            && r >= 0 && (forall k :: k in c.outputs ==> c.outputs[k] <= r)
            && (r > 0 ==> exists k :: k in c.outputs && c.outputs[k] == r)
  {
  }

  // ---------------------------------------------------------------- whole runs

  /** The buffers after a run of calls. */
  ghost function After(calls: seq<Call>, window: int): History {
    if calls == [] then map[]
    else Apply(After(calls[..|calls| - 1], window), window, calls[|calls| - 1])
  }

  /** The buffers that further calls leave. */
  ghost function Feed(h: History, window: int, calls: seq<Call>): History {
    if calls == [] then h else Apply(Feed(h, window, calls[..|calls| - 1]), window, calls[|calls| - 1])
  }

  lemma {:induction false} FeedContinues(calls: seq<Call>, window: int, more: seq<Call>)
    ensures After(calls + more, window) == Feed(After(calls, window), window, more)
  {
    if more == [] {
      assert calls + more == calls;
    } else {
      assert (calls + more)[..|calls + more| - 1] == calls + more[..|more| - 1];
      FeedContinues(calls, window, more[..|more| - 1]);
    }
  }

  /** Everything ever recorded for a key, the seed first, nothing forgotten. */
  ghost function FullLog(calls: seq<Call>, key: string): seq<Recommendation> {
    if calls == [] then []
    else
      var log, c := FullLog(calls[..|calls| - 1], key), calls[|calls| - 1];
      if c.key != key then log
      else (if log == [] then [c.Seed()] else log) + [c.Fresh()]
  }

  /** Calls for one key see a clock that does not go back; other keys are unconstrained. */
  ghost predicate ClockForward(calls: seq<Call>, key: string) {
    && (forall i :: 0 <= i < |calls| && calls[i].key == key ==>
          calls[i].seedAt <= calls[i].now <= calls[i].stampedAt)
    && (forall i, j :: 0 <= i < j < |calls| && calls[i].key == key && calls[j].key == key ==>
          calls[i].stampedAt <= calls[j].seedAt)
  }

  /** m is the largest recommendation of the log stamped at or after the cutoff. */
  ghost predicate IsWindowMax(m: int, log: seq<Recommendation>, cutoff: Time) {
    && (exists r :: r in log && r.timestamp >= cutoff && r.replicas == m)
    && (forall r :: r in log && r.timestamp >= cutoff ==> r.replicas <= m)
  }

  /** The buffer holds nothing but log entries, and all of those at or after the horizon. */
  ghost predicate Agrees(b: Buffer, log: seq<Recommendation>, horizon: Time) {
    && (forall r :: r in b ==> r in log)
    && (forall r :: r in log && r.timestamp >= horizon ==> r in b)
  }

  lemma {:induction false} RecordAgrees(b: Buffer, log: seq<Recommendation>, r: Recommendation, cutoff: Time)
    requires Agrees(b, log, cutoff)
    ensures Agrees(Record(b, r, cutoff), log + [r], cutoff)
  {
    var b' := Record(b, r, cutoff);
    var slot := LastExpired(b, cutoff);
    assert r in b' by {
      assert b'[if slot.Some? then slot.value else |b|] == r;
    }
    forall x | x in log && x.timestamp >= cutoff ensures x in b' {
      var i :| 0 <= i < |b| && b[i] == x;
      assert b'[i] == x;
    }
  }

  lemma {:induction false} ApplyAgrees(h: History, log: seq<Recommendation>, window: int, c: Call)
    requires c.key in h <==> log != []
    requires c.key in h ==> Agrees(h[c.key], log, c.now - window)
    ensures Agrees(Apply(h, window, c)[c.key],
                   (if log == [] then [c.Seed()] else log) + [c.Fresh()], c.now - window)
  {
    RecordAgrees(Seeded(h, c)[c.key], if log == [] then [c.Seed()] else log, c.Fresh(), c.now - window);
  }

  /** The compacted buffer and the full log agree on everything a later cutoff can see. */
  lemma {:induction false} BufferAgreesWithLog(calls: seq<Call>, window: int, key: string, horizon: Time)
    requires ClockForward(calls, key)
    requires forall i :: 0 <= i < |calls| && calls[i].key == key ==> calls[i].now - window <= horizon
    ensures key in After(calls, window) <==> FullLog(calls, key) != []
    ensures key in After(calls, window) ==> Agrees(After(calls, window)[key], FullLog(calls, key), horizon)
    decreases |calls|
  {
    if calls != [] {
      var before, c := calls[..|calls| - 1], calls[|calls| - 1];
      if c.key == key {
        BufferAgreesWithLog(before, window, key, c.now - window);
        ApplyAgrees(After(before, window), FullLog(before, key), window, c);
      } else {
        BufferAgreesWithLog(before, window, key, horizon);
      }
    }
  }

  lemma {:induction false} HighestIsMax(b: Buffer, cutoff: Time, base: int)
    ensures Highest(b, cutoff, base) >= base
    ensures forall r :: r in b && r.timestamp >= cutoff ==> r.replicas <= Highest(b, cutoff, base)
    ensures Highest(b, cutoff, base) == base
            || exists r :: r in b && r.timestamp >= cutoff && r.replicas == Highest(b, cutoff, base)
  {
    if b != [] {
      HighestIsMax(b[..|b| - 1], cutoff, base);
      assert b == b[..|b| - 1] + [b[|b| - 1]];
    }
  }

  /** The answer given by the last call of a run. */
  ghost function LastAnswer(calls: seq<Call>, window: int): int
    requires calls != []
  {
    Answer(After(calls[..|calls| - 1], window), window, calls[|calls| - 1])
  }

  lemma {:induction false} EarlierCalls(calls: seq<Call>, window: int)
    requires calls != [] && ClockForward(calls, calls[|calls| - 1].key)
    ensures var before, c := calls[..|calls| - 1], calls[|calls| - 1];
            && ClockForward(before, c.key) && c.now <= c.stampedAt
            && forall i :: 0 <= i < |before| && before[i].key == c.key ==> before[i].now - window <= c.now - window
  {
  }

  lemma {:induction false} AnswerFromAgreeing(h: History, log: seq<Recommendation>, window: int, c: Call)
    requires window >= 0 && c.now <= c.stampedAt
    requires c.key in h <==> log != []
    requires c.key in h ==> Agrees(h[c.key], log, c.now - window)
    ensures IsWindowMax(Answer(h, window, c), (if log == [] then [c.Seed()] else log) + [c.Fresh()], c.now - window)
  {
    HighestOfAgreeing(Seeded(h, c)[c.key], if log == [] then [c.Seed()] else log, c.Fresh(), c.now - window);
  }

  /**
   Buffer refines log: whatever was overwritten before, every answer is the largest
   recommendation ever recorded for that autoscaler inside the window, this call included.
   */
  lemma {:induction false} BufferRefinesLog(calls: seq<Call>, window: int)
    requires window >= 0 && calls != []
    requires ClockForward(calls, calls[|calls| - 1].key)
    ensures var c := calls[|calls| - 1];
            IsWindowMax(LastAnswer(calls, window), FullLog(calls, c.key), c.now - window)
  {
    var before, c := calls[..|calls| - 1], calls[|calls| - 1];
    EarlierCalls(calls, window);
    BufferAgreesWithLog(before, window, c.key, c.now - window);
    AnswerFromAgreeing(After(before, window), FullLog(before, c.key), window, c);
  }

  lemma {:induction false} HighestOfAgreeing(b: Buffer, log: seq<Recommendation>, r: Recommendation, cutoff: Time)
    requires Agrees(b, log, cutoff) && r.timestamp >= cutoff
    ensures IsWindowMax(Highest(b, cutoff, r.replicas), log + [r], cutoff)
  {
    HighestIsMax(b, cutoff, r.replicas);
    assert r in log + [r];
  }

  lemma {:induction false} OneMoreCall(calls: seq<Call>, window: int, c: Call)
    ensures After(calls + [c], window) == Apply(After(calls, window), window, c)
    ensures FullLog(calls + [c], c.key)
            == (if FullLog(calls, c.key) == [] then [c.Seed()] else FullLog(calls, c.key)) + [c.Fresh()]
  {
    assert (calls + [c])[..|calls|] == calls;
  }

  /** What was seeded or recommended stays in the log. */
  lemma {:induction false} LogRemembers(calls: seq<Call>, i: nat)
    requires i < |calls|
    ensures calls[i].Fresh() in FullLog(calls, calls[i].key)
    ensures (forall j :: 0 <= j < i ==> calls[j].key != calls[i].key) ==>
              calls[i].Seed() in FullLog(calls, calls[i].key)
    decreases |calls|
  {
    var before, key := calls[..|calls| - 1], calls[i].key;
    if i < |calls| - 1 {
      LogRemembers(before, i);
    } else if forall j :: 0 <= j < i ==> calls[j].key != key {
      LogOfStranger(before, key);
    }
  }

  lemma {:induction false} LogOfStranger(calls: seq<Call>, key: string)
    requires forall j :: 0 <= j < |calls| ==> calls[j].key != key
    ensures FullLog(calls, key) == []
  {
    if calls != [] {
      LogOfStranger(calls[..|calls| - 1], key);
    }
  }

  /**
   Restart safety: an autoscaler first seen by the call `first` is never answered below the
   replicas it had then, until a full window has passed.
   */
  lemma {:induction false} RestartSafety(calls: seq<Call>, window: int, first: nat)
    requires window >= 0 && first < |calls|
    requires var c := calls[|calls| - 1];
             && ClockForward(calls, c.key)
             && calls[first].key == c.key
             && (forall j :: 0 <= j < first ==> calls[j].key != c.key)
             && c.now <= calls[first].seedAt + window
    ensures LastAnswer(calls, window) >= calls[first].specReplicas
  {
    BufferRefinesLog(calls, window);
    LogRemembers(calls, first);
  }

  /** An answer is no lower than any scaler's output. */
  lemma {:induction false} AnswerCoversOutput(h: History, window: int, c: Call, scaler: string)
    requires scaler in c.outputs
    ensures Answer(h, window, c) >= c.outputs[scaler]
  {
    HighestIsMax(Seeded(h, c)[c.key], c.now - window, c.Fresh().replicas);
  }

  // ---------------------------------------------------------------- isolation

  /** Two autoscalers share a key only if they are the same, given that names hold no slash. */
  lemma {:induction false} KeyInjective(n1: string, ns1: string, n2: string, ns2: string)
    requires '/' !in n1 && '/' !in n2
    ensures UniqueKey(n1, ns1) == UniqueKey(n2, ns2) <==> n1 == n2 && ns1 == ns2
  {
    var k1, k2 := UniqueKey(n1, ns1), UniqueKey(n2, ns2);
    FirstSlash(n1, ns1);
    FirstSlash(n2, ns2);
    if k1 == k2 {
      assert n1 == k1[..|n1|] == k2[..|n1|] == n2;
      assert ns1 == k1[|n1| + 1..] == k2[|n1| + 1..] == ns2;
    }
  }

  lemma {:induction false} FirstSlash(name: string, namespace: string)
    requires '/' !in name
    ensures var k := UniqueKey(name, namespace); k[|name|] == '/' && forall i :: 0 <= i < |name| ==> k[i] != '/'
  {
    assert forall i :: 0 <= i < |name| ==> UniqueKey(name, namespace)[i] == name[i];
  }

  function OnlyKey(calls: seq<Call>, key: string): seq<Call> {
    if calls == [] then []
    else
      var own, c := OnlyKey(calls[..|calls| - 1], key), calls[|calls| - 1];
      if c.key == key then own + [c] else own
  }

  /** An autoscaler's buffer is the one it would have had alone. */
  lemma {:induction false} Isolation(calls: seq<Call>, window: int, key: string)
    ensures key in After(calls, window) <==> key in After(OnlyKey(calls, key), window)
    ensures key in After(calls, window) ==> After(calls, window)[key] == After(OnlyKey(calls, key), window)[key]
    decreases |calls|
  {
    if calls != [] {
      var before, c := calls[..|calls| - 1], calls[|calls| - 1];
      Isolation(before, window, key);
      if c.key == key {
        OneMoreCall(OnlyKey(before, key), window, c);
      }
    }
  }

  // ---------------------------------------------------------------- size of a buffer

  /** Calls for the key leave at least d between one's last clock reading and the next one's first cutoff. */
  ghost predicate CallsApart(calls: seq<Call>, key: string, d: int) {
    forall i, j :: 0 <= i < j < |calls| && calls[i].key == key && calls[j].key == key ==>
      calls[i].stampedAt + d <= calls[j].now
  }

  function Stamps(b: Buffer): (ts: seq<Time>)
    ensures |ts| == |b| && forall i :: 0 <= i < |b| ==> ts[i] == b[i].timestamp
  {
    seq(|b|, i requires 0 <= i < |b| => b[i].timestamp)
  }

  /** All slots but the seed's are stamped at least d apart, none later than `latest`. */
  ghost predicate Sparse(b: Buffer, d: int, latest: Time) {
    && |b| > 0
    && (forall i :: 0 <= i < |b| ==> b[i].timestamp <= latest)
    && PairwiseApart(Stamps(b[1..]), d)
  }

  lemma {:induction false} RecordSparse(b: Buffer, window: int, d: int, now: Time, r: Recommendation)
    requires window >= 0 && d > 0 && Sparse(b, d, now - d) && now <= r.timestamp
    requires |b| <= window / d + 2
    ensures Sparse(Record(b, r, now - window), d, r.timestamp)
    ensures |Record(b, r, now - window)| <= window / d + 2
  {
    var b', rest := Record(b, r, now - window), b[1..];
    var slot := LastExpired(b, now - window);
    forall i, j | 0 <= i < j < |b'| - 1 ensures Apart(Stamps(b'[1..])[i], Stamps(b'[1..])[j], d) {
      var k := if slot.Some? then slot.value else |b|;
      assert b'[k] == r;
      if i + 1 != k && j + 1 != k {
        assert Apart(Stamps(rest)[i], Stamps(rest)[j], d);
      }
    }
    if slot.None? && |rest| > 0 {
      assert b[1].timestamp == rest[0].timestamp;
      SpacedCount(Stamps(rest), now - window, now - d, d);
      DivStep(window, window, d);
    } else if slot.None? {
      DivMonotone(0, window, d);
    }
  }

  lemma {:induction false} ApplySparse(h: History, window: int, d: int, c: Call)
    requires window >= 0 && d > 0 && c.seedAt <= c.now <= c.stampedAt
    requires c.key in h ==> Sparse(h[c.key], d, c.now - d) && |h[c.key]| <= window / d + 2
    ensures var b := Apply(h, window, c)[c.key];
            Sparse(b, d, c.stampedAt) && |b| <= window / d + 2
  {
    if c.key in h {
      RecordSparse(h[c.key], window, d, c.now, c.Fresh());
    } else {
      DivMonotone(0, window, d);
    }
  }

  lemma {:induction false} BufferSparse(calls: seq<Call>, window: int, d: int, key: string, latest: Time)
    requires window >= 0 && d > 0
    requires ClockForward(calls, key) && CallsApart(calls, key, d)
    requires forall i :: 0 <= i < |calls| && calls[i].key == key ==> calls[i].stampedAt <= latest
    ensures key in After(calls, window) ==>
              && Sparse(After(calls, window)[key], d, latest)
              && |After(calls, window)[key]| <= window / d + 2
    decreases |calls|
  {
    if calls != [] {
      var before, c := calls[..|calls| - 1], calls[|calls| - 1];
      if c.key == key {
        BufferSparse(before, window, d, key, c.now - d);
        ApplySparse(After(before, window), window, d, c);
      } else {
        BufferSparse(before, window, d, key, latest);
      }
    }
  }

  /** Over every run of calls at least d apart a buffer holds at most window / d + 2 entries. */
  lemma {:induction false} BufferSizeBound(calls: seq<Call>, window: int, d: int, key: string)
    requires window >= 0 && d > 0
    requires ClockForward(calls, key) && CallsApart(calls, key, d)
    ensures key in After(calls, window) ==> |After(calls, window)[key]| <= window / d + 2
  {
    var latest := LatestStamp(calls);
    BufferSparse(calls, window, d, key, latest);
  }

  lemma {:induction false} LatestStamp(calls: seq<Call>) returns (latest: Time)
    ensures forall i :: 0 <= i < |calls| ==> calls[i].stampedAt <= latest
  {
    latest := 0;
    for n := 0 to |calls|
      invariant forall i :: 0 <= i < n ==> calls[i].stampedAt <= latest
    {
      latest := Max(latest, calls[n].stampedAt);
    }
  }
}
