/** Status conditions and the panic-mode predicates that read them. */
module Conditions {
  import opened Common

  datatype ConditionType = NoType | ReplicaPatched | ScaleLimited | Ready | PanicMode | Exhausted

  datatype ConditionStatus = NoStatus | True | False | Unknown

  datatype Reason =
    | NoReason
    | FailedToGetScaleTarget
    | FailedToScale
    | ScalerNotExists(metric: string)
    | ReplicatorNotExists
    | NoPatchApplied
    | PatchApplied(min: int, max: int)
    | ReachMaxReplicas
    | ReachMinimalReplicas
    | ExhaustedOnPending

  const ZERO_TIME: Time := 0

  datatype Condition = Condition(kind: ConditionType, status: ConditionStatus, reason: Reason, lastTransition: Time)

  type ConditionList = seq<Condition>

  /** An empty list stands for one that holds Ready = Unknown. */
  function Initialized(cs: ConditionList): (r: ConditionList)
    ensures r != []
  {
    if cs == [] then [Condition(Ready, Unknown, NoReason, ZERO_TIME)] else cs
  }

  function Find(cs: ConditionList, kind: ConditionType): Condition {
    if cs == [] then Condition(NoType, NoStatus, NoReason, ZERO_TIME)
    else if cs[0].kind == kind then cs[0]
    else Find(cs[1..], kind)
  }

  /** The first entry of the kind, or the zero condition. */
  function Get(cs: ConditionList, kind: ConditionType): Condition {
    Find(Initialized(cs), kind)
  }

  function Has(cs: ConditionList, kind: ConditionType): bool {
    exists i :: 0 <= i < |cs| && cs[i].kind == kind
  }

  /** One entry after a write: the transition time moves only with the status or the reason. */
  function Written(entry: Condition, kind: ConditionType, status: ConditionStatus, reason: Reason,
                   now: Time): Condition {
    if entry.kind != kind then entry
    else if entry.status == status && entry.reason == reason then entry
    else Condition(kind, status, reason, now)
  }

  function WrittenAll(base: ConditionList, kind: ConditionType, status: ConditionStatus, reason: Reason, now: Time)
    : (r: ConditionList)
    ensures |r| == |base|
    ensures forall i :: 0 <= i < |base| ==> r[i] == Written(base[i], kind, status, reason, now)
  {
    seq(|base|, i requires 0 <= i < |base| => Written(base[i], kind, status, reason, now))
  }

  function Set(cs: ConditionList, kind: ConditionType, status: ConditionStatus, reason: Reason,
               now: Time): ConditionList {
    var updated := WrittenAll(Initialized(cs), kind, status, reason, now);
    if Has(Initialized(cs), kind) then updated else updated + [Condition(kind, status, reason, now)]
  }

  method SetCondition(conditions: ConditionList, kind: ConditionType, status: ConditionStatus, reason: Reason,
                      now: Time)
    returns (r: ConditionList)
    ensures r == Set(conditions, kind, status, reason, now)
  {
    r := conditions;
    if |r| == 0 {
      r := [Condition(Ready, Unknown, NoReason, ZERO_TIME)];
    }
    ghost var base := r;
    var found := false;
    for i := 0 to |r|
      invariant |r| == |base|
      invariant found == Has(base[..i], kind)
      invariant forall k :: 0 <= k < i ==> r[k] == Written(base[k], kind, status, reason, now)
      invariant forall k :: i <= k < |r| ==> r[k] == base[k]
    {
      if r[i].kind == kind {
        assert base[..i + 1][i].kind == kind;
        found := true;
        if r[i].status != status || r[i].reason != reason {
          r := r[i := r[i].(lastTransition := now)];
        }
        r := r[i := r[i].(status := status, reason := reason)];
      } else {
        HasPrefix(base, i, kind);
      }
    }
    assert base[..|base|] == base;
    if !found {
      r := r + [Condition(kind, status, reason, now)];
    }
  }

  lemma HasPrefix(cs: ConditionList, i: nat, kind: ConditionType)
    requires i < |cs| && cs[i].kind != kind
    ensures Has(cs[..i + 1], kind) == Has(cs[..i], kind)
  {
    assert forall k :: 0 <= k < i ==> cs[..i + 1][k] == cs[..i][k];
    if Has(cs[..i + 1], kind) {
      var k :| 0 <= k < |cs[..i + 1]| && cs[..i + 1][k].kind == kind;
      assert cs[..i][k].kind == kind;
    }
    if Has(cs[..i], kind) {
      var k :| 0 <= k < |cs[..i]| && cs[..i][k].kind == kind;
      assert cs[..i + 1][k].kind == kind;
    }
  }

  method GetCondition(conditions: ConditionList, kind: ConditionType) returns (c: Condition)
    ensures c == Get(conditions, kind)
  {
    var cs := conditions;
    if |cs| == 0 {
      cs := [Condition(Ready, Unknown, NoReason, ZERO_TIME)];
    }
    var i := 0;
    while i < |cs|
      invariant 0 <= i <= |cs|
      invariant Find(cs, kind) == Find(cs[i..], kind)
    {
      if cs[i].kind == kind {
        return cs[i];
      }
      i := i + 1;
    }
    return Condition(NoType, NoStatus, NoReason, ZERO_TIME);
  }

  lemma {:induction false} FindIsFirst(cs: ConditionList, kind: ConditionType, i: nat)
    requires i < |cs| && cs[i].kind == kind
    requires forall k :: 0 <= k < i ==> cs[k].kind != kind
    ensures Find(cs, kind) == cs[i]
  {
    if i > 0 {
      FindIsFirst(cs[1..], kind, i - 1);
    }
  }

  lemma {:induction false} FindNothing(cs: ConditionList, kind: ConditionType)
    requires forall k :: 0 <= k < |cs| ==> cs[k].kind != kind
    ensures Find(cs, kind) == Condition(NoType, NoStatus, NoReason, ZERO_TIME)
  {
    if cs != [] {
      FindNothing(cs[1..], kind);
    }
  }

  lemma {:induction false} FindPosition(cs: ConditionList, kind: ConditionType) returns (first: nat)
    ensures first <= |cs|
    ensures forall k :: 0 <= k < first ==> cs[k].kind != kind
    ensures first < |cs| ==> cs[first].kind == kind && Find(cs, kind) == cs[first]
    ensures first == |cs| ==> Find(cs, kind) == Condition(NoType, NoStatus, NoReason, ZERO_TIME)
  {
    first := 0;
    while first < |cs| && cs[first].kind != kind
      invariant first <= |cs|
      invariant forall k :: 0 <= k < first ==> cs[k].kind != kind
    {
      first := first + 1;
    }
    if first < |cs| {
      FindIsFirst(cs, kind, first);
    } else {
      FindNothing(cs, kind);
    }
  }

  /** A read finds an entry of its kind or the zero condition. */
  lemma {:induction false} GetKind(cs: ConditionList, kind: ConditionType)
    ensures Get(cs, kind).kind == kind || Get(cs, kind) == Condition(NoType, NoStatus, NoReason, ZERO_TIME)
  {
    var first := FindPosition(Initialized(cs), kind);
  }

  /** A reading is the first entry of the kind; an empty list reads as Ready, not yet known. */
  lemma {:induction false} GetIsFirst(cs: ConditionList, kind: ConditionType)
    ensures var c := Get(cs, kind);
            || (exists i :: 0 <= i < |cs| && cs[i] == c && c.kind == kind
                            && forall k :: 0 <= k < i ==> cs[k].kind != kind)
            || (cs == [] && kind == Ready && c == Condition(Ready, Unknown, NoReason, 0))
            || (c == Condition(NoType, NoStatus, NoReason, 0) && (cs == [] ==> kind != Ready)
                && forall k :: 0 <= k < |cs| ==> cs[k].kind != kind)
  {
    var first := FindPosition(Initialized(cs), kind);
    if cs != [] && first < |cs| {
      assert cs[first] == Get(cs, kind);
    }
  }

  lemma {:induction false} FoundAfterSet(cs: ConditionList, kind: ConditionType, status: ConditionStatus,
                                         reason: Reason, now: Time, other: ConditionType, first: nat)
    requires first < |Initialized(cs)| && Initialized(cs)[first].kind == other
    requires forall k :: 0 <= k < first ==> Initialized(cs)[k].kind != other
    ensures Get(Set(cs, kind, status, reason, now), other) == Written(Initialized(cs)[first], kind, status, reason, now)
  {
    var base, r := Initialized(cs), Set(cs, kind, status, reason, now);
    assert forall k :: 0 <= k <= first ==> r[k] == Written(base[k], kind, status, reason, now);
    FindIsFirst(r, other, first);
  }

  lemma {:induction false} AbsentAfterSet(cs: ConditionList, kind: ConditionType, status: ConditionStatus,
                                          reason: Reason, now: Time, other: ConditionType)
    requires forall k :: 0 <= k < |Initialized(cs)| ==> Initialized(cs)[k].kind != other
    ensures Get(Set(cs, kind, status, reason, now), other) ==
            if other == kind then Condition(kind, status, reason, now)
            else Condition(NoType, NoStatus, NoReason, ZERO_TIME)
  {
    var base, r := Initialized(cs), Set(cs, kind, status, reason, now);
    assert forall k :: 0 <= k < |base| ==> r[k].kind == base[k].kind;
    if other == kind {
      FindIsFirst(r, other, |base|);
    } else {
      FindNothing(r, other);
    }
  }

  /** Reading back a write of a kind: an entry that already says so keeps its time. */
  function Rewritten(before: Condition, kind: ConditionType, status: ConditionStatus, reason: Reason,
                     now: Time): Condition {
    if before.kind == kind && before.status == status && before.reason == reason then before
    else Condition(kind, status, reason, now)
  }

  /** Reading back a write, and the frame of a write, for every list and every two kinds. */
  lemma {:induction false} GetAfterSet(cs: ConditionList, kind: ConditionType, status: ConditionStatus,
                                       reason: Reason, now: Time, other: ConditionType)
    requires kind != NoType
    ensures Get(Set(cs, kind, status, reason, now), other) ==
            if other == kind then Rewritten(Get(cs, kind), kind, status, reason, now) else Get(cs, other)
  {
    var first := FindPosition(Initialized(cs), other);
    if first < |Initialized(cs)| {
      FoundAfterSet(cs, kind, status, reason, now, other, first);
    } else {
      AbsentAfterSet(cs, kind, status, reason, now, other);
    }
  }

  // ---------------------------------------------------------------- persistence

  /** What a list reads as after it was stored: transition times keep whole seconds. */
  function Stored(cs: ConditionList): (r: ConditionList)
    ensures |r| == |cs|
    ensures forall i :: 0 <= i < |cs| ==> r[i] == StoredOne(cs[i])
  {
    seq(|cs|, i requires 0 <= i < |cs| => StoredOne(cs[i]))
  }

  function StoredOne(c: Condition): Condition {
    c.(lastTransition := WholeSeconds(c.lastTransition))
  }

  lemma {:induction false} GetStored(cs: ConditionList, kind: ConditionType)
    ensures Get(Stored(cs), kind) == StoredOne(Get(cs, kind))
  {
    var base, r := Initialized(cs), Initialized(Stored(cs));
    assert |r| == |base| && forall i :: 0 <= i < |base| ==> r[i] == StoredOne(base[i]);
    var first := FindPosition(base, kind);
    if first < |base| {
      FindIsFirst(r, kind, first);
    } else {
      FindNothing(r, kind);
    }
  }

  // ---------------------------------------------------------------- panic mode

  datatype Strategy = Strategy(panicWindowSeconds: Option<int>, panicThreshold: Option<real>)

  predicate IsPanicModeConfigured(strategy: Option<Strategy>) {
    strategy.Some? && strategy.value.panicThreshold.Some? && strategy.value.panicWindowSeconds.Some?
  }

  function PanicWindow(strategy: Option<Strategy>): int
    requires IsPanicModeConfigured(strategy)
  {
    strategy.value.panicWindowSeconds.value * SECOND
  }

  predicate ShouldEnterPanicMode(desired: int, current: int, strategy: Option<Strategy>) {
    if !IsPanicModeConfigured(strategy) || desired == 0 then false
    else if current == 0 then desired > 0
    else desired as real / current as real >= strategy.value.panicThreshold.value
  }

  predicate StillInPanicMode(conditions: ConditionList, strategy: Option<Strategy>, now: Time) {
    && IsPanicModeConfigured(strategy)
    && var c := Get(conditions, PanicMode);
       && c.kind == PanicMode
       && c.status == True
       && now - c.lastTransition < PanicWindow(strategy)
  }

  lemma RatioAtLeast(desired: real, current: real, threshold: real)
    requires current > 0.0
    ensures desired / current >= threshold <==> desired >= threshold * current
  {
    var ratio := desired / current;
    assert ratio * current == desired;
    assert (ratio - threshold) * current == desired - threshold * current;
    if ratio > threshold { RealProduct(ratio - threshold, current); }
    if ratio < threshold {
      RealProduct(threshold - ratio, current);
      assert (threshold - ratio) * current == threshold * current - desired;
    }
  }

  /**
   A trigger, for replica counts that are not negative: both settings are given, something is wanted,
   and it is at least the threshold times the current replicas, or there are none yet. With a threshold
   above one only a scale-up triggers.
   */
  lemma PanicTriggerIff(desired: int, current: int, strategy: Option<Strategy>)
    requires desired >= 0 && current >= 0
    ensures ShouldEnterPanicMode(desired, current, strategy) <==>
              && strategy.Some? && strategy.value.panicThreshold.Some? && strategy.value.panicWindowSeconds.Some?
              && desired > 0
              && (current == 0 || desired as real >= strategy.value.panicThreshold.value * current as real)
    ensures ShouldEnterPanicMode(desired, current, strategy) && strategy.value.panicThreshold.value > 1.0 ==>
              desired > current
  {
    if IsPanicModeConfigured(strategy) && current > 0 {
      var threshold := strategy.value.panicThreshold.value;
      RatioAtLeast(desired as real, current as real, threshold);
      if threshold > 1.0 {
        RealProduct(threshold - 1.0, current as real);
        assert (threshold - 1.0) * current as real == threshold * current as real - current as real;
      }
    }
  }
}
