/** What the pod-resource scaler's decisions satisfy, for every input. */
module PodResourceProperties {
  import opened Common
  import opened Utilization
  import opened PodResource

  /** The first measurement was made, with this outcome. */
  ghost predicate MeasuredAs(input: Input, requests: map<string, int>, u: Usage) {
    && input.target != 0
    && Requests(input.pods, input.container) == Some(requests)
    && |Measured(input)| > 0
    && UsageOf(Measured(input), requests, input.target) == Some(u)
  }

  /** The decision reports the first measurement. */
  predicate Reports(d: Decision, u: Usage) {
    d.utilization == u.utilization && d.average == u.average
  }

  /** Usage and requests are amounts. */
  ghost predicate Amounts(input: Input) {
    && (forall k :: k in input.metrics ==> input.metrics[k].value >= 0)
    && (forall pod :: pod in input.pods ==>
          forall c :: c in pod.containers ==> c.request.Some? ==> c.request.value >= 0)
  }

  /** A second measurement is due: for missing pods, and on the way up for unready ones. */
  predicate NeedsFill(g: Groups, ratio: real) {
    g.missing != {} || (ratio > 1.0 && g.unready != {})
  }

  // ---------------------------------------------------------------- direction

  /** At or above the target never fewer replicas, at or below it never more. */
  ghost predicate KeepsDirection(ratio: real, current: int, replicas: int) {
    && (ratio >= 1.0 ==> replicas >= current)
    && (ratio <= 1.0 ==> replicas <= current)
  }

  lemma CeilTimes(x: real, k: int, t: int, p: int)
    requires t > 0 && x * t as real == p as real && k == Ceil(x)
    ensures (k - 1) * t < p <= k * t
  {
    ScaleOrder(k as real - 1.0, x, t as real);
    ScaleOrder(k as real, x, t as real);
    assert (k as real - 1.0) * t as real == ((k - 1) * t) as real;
    assert k as real * t as real == (k * t) as real;
  }

  /** The ceiling of (u / t) * n is the least k with k * t >= u * n. */
  lemma CeilOfRatio(u: int, t: int, n: int)
    requires t > 0
    ensures var k := ReplicasFor(u as real / t as real, n); (k - 1) * t < u * n <= k * t
  {
    var ratio := u as real / t as real;
    assert ratio * t as real == u as real;
    CeilOfRatioTimes(ratio, ReplicasFor(ratio, n), u, t, n);
  }

  lemma CeilOfRatioTimes(ratio: real, k: int, u: int, t: int, n: int)
    requires t > 0 && ratio * t as real == u as real && k == ReplicasFor(ratio, n)
    ensures (k - 1) * t < u * n <= k * t
  {
    RatioTimes(ratio, u as real, t as real, n as real);
    assert u as real * n as real == (u * n) as real;
    var x := ratio * n as real;
    CeilTimes(x, k, t, u * n);
  }

  lemma LeastMultiple(k: int, t: int, x: int, b: int)
    requires t > 0 && (k - 1) * t < x <= k * t
    ensures k <= b <==> x <= b * t
  {
    if x <= b * t {
      assert (k - 1 - b) * t == (k - 1) * t - b * t;
      MultipleBelow(k - b, t, (k - 1 - b) * t + t);
    }
    if k <= b {
      Product(b - k, t);
      assert (b - k) * t == b * t - k * t;
    }
  }

  lemma CeilOrder(u: int, t: int, n: int, current: int)
    requires t > 0
    ensures var k := ReplicasFor(u as real / t as real, n);
            && (k < current <==> u * n <= (current - 1) * t)
            && (k > current <==> u * n > current * t)
  {
    CeilOfRatio(u, t, n);
    var k := ReplicasFor(u as real / t as real, n);
    LeastMultiple(k, t, u * n, current - 1);
    LeastMultiple(k, t, u * n, current);
  }

  lemma DirectDecision(input: Input, requests: map<string, int>, u: Usage)
    requires MeasuredAs(input, requests, u) && !NeedsFill(Grouped(input), u.ratio)
    ensures u.ratio == u.utilization as real / input.target as real
    ensures Tidy(input) == Ok(Decision(Direct(input.tolerance, u.ratio, Grouped(input).readyCount, input.current),
                                       u.utilization, u.average))
  {
  }

  /**
   Inside the tolerance the current replicas; otherwise the least that carry the ready pods' usage at the
   target, and so fewer or more than now exactly as this usage fits into fewer, or needs more.
   */
  ghost predicate FollowsReadyPods(tolerance: real, u: Usage, target: int, ready: int, current: int, replicas: int) {
    if Abs(1.0 - u.ratio) <= tolerance then replicas == current
    else
      && (replicas - 1) * target < u.utilization * ready <= replicas * target
      && (replicas < current <==> u.utilization * ready <= (current - 1) * target)
      && (replicas > current <==> u.utilization * ready > current * target)
  }

  lemma DirectFollowsReadyPods(tolerance: real, u: Usage, target: int, ready: int, current: int)
    requires target > 0 && u.ratio == u.utilization as real / target as real
    ensures FollowsReadyPods(tolerance, u, target, ready, current, Direct(tolerance, u.ratio, ready, current))
  {
    CeilOfRatio(u.utilization, target, ready);
    CeilOrder(u.utilization, target, ready, current);
  }

  /**
   The direct path multiplies by the ready pods, not the current replicas: outside the tolerance it
   decides for fewer (more) replicas exactly when the ready pods' usage at the target fits into fewer
   (does not fit into) the current ones, whichever side of the target the usage is on.
   */
  lemma DirectPathDirection(input: Input, requests: map<string, int>, u: Usage)
    requires MeasuredAs(input, requests, u) && !NeedsFill(Grouped(input), u.ratio) && input.target > 0
    ensures Tidy(input).Ok? && Reports(Tidy(input).value, u)
    ensures FollowsReadyPods(input.tolerance, u, input.target, Grouped(input).readyCount, input.current,
                             Tidy(input).value.replicas)
  {
    DirectDecision(input, requests, u);
    DirectFollowsReadyPods(input.tolerance, u, input.target, Grouped(input).readyCount, input.current);
  }

  /** One pod at 60% of its request: the only one listed while three replicas are wanted, against a target of 50%. */
  function ShortList(): Input {
    Input(0.05, map["a" := PodMetric(0, 0, 60)],
          [Pod("a", false, Running, None, None, [Container("main", Some(100))])],
          false, "", 50, 3, i => 0)
  }

  lemma {:induction false} ShortListMeasured()
    ensures Grouped(ShortList()) == Groups(1, {}, {}, {})
    ensures Measured(ShortList()) == map["a" := PodMetric(0, 0, 60)]
    ensures Requests(ShortList().pods, "") == Some(map["a" := 100])
  {
    var input := ShortList();
    assert Classes(input) == [IsReady];
    assert CountWhere([IsReady], 1, IsReady) == CountWhere([IsReady], 0, IsReady) + 1;
    var pod := input.pods[0];
    assert pod.containers[..0] == [] && input.pods[..0] == [];
    assert PodRequest([], "") == Some(0);
    assert PodRequest(pod.containers, "") == Some(100);
    assert Requests([], "") == Some(map[]);
  }

  lemma {:induction false} ShortListUsage()
    ensures UsageOf(map["a" := PodMetric(0, 0, 60)], map["a" := 100], 50) == Some(Usage(1.2, 60, 60))
  {
    var m, requests := map["a" := PodMetric(0, 0, 60)], map["a" := 100];
    assert Matched(m, requests) == {"a"};
    SumPick(Values(m), {"a"}, "a");
    SumPick(requests, {"a"}, "a");
    assert {"a"} - {"a"} == {};
    assert Percent(60, 100) == 60 && TruncDiv(60, 1) == 60;
    assert 60.0 / 50.0 == 1.2;
  }

  /** Without that many ready pods direction safety fails: usage above the target, and fewer replicas than now. */
  lemma {:induction false} DirectPathCanShrinkUnderLoad()
    ensures MeasuredAs(ShortList(), map["a" := 100], Usage(1.2, 60, 60))
    ensures Tidy(ShortList()).Ok? && Tidy(ShortList()).value.replicas == 2 < ShortList().current
  {
    ShortListMeasured();
    ShortListUsage();
    assert ReplicasFor(1.2, 1) == 2;
  }

  lemma RatioOrder(u: int, t: int)
    requires t > 0
    ensures u as real / t as real >= 1.0 <==> u >= t
    ensures u as real / t as real <= 1.0 <==> u <= t
  {
    assert (u as real / t as real) * t as real == u as real;
    ScaleOrder(u as real / t as real, 1.0, t as real);
    ScaleOrder(1.0, u as real / t as real, t as real);
  }

  lemma MulMonotone(a: int, b: int, n: int)
    requires n >= 0 && a <= b
    ensures a * n <= b * n
  {
    Product(b - a, n);
    assert (b - a) * n == b * n - a * n;
  }

  lemma CeilKeepsDirection(u: int, t: int, n: nat)
    requires t > 0
    ensures KeepsDirection(u as real / t as real, n, ReplicasFor(u as real / t as real, n))
  {
    RatioOrder(u, t);
    CeilOrder(u, t, n, n);
    assert (n - 1) * t == t * n - t && n * t == t * n;
    if u >= t { MulMonotone(t, u, n); }
    if u <= t { MulMonotone(u, t, n); }
  }

  /** So with as many ready pods as replicas the direct path is direction safe too. */
  lemma DirectPathSafeWhenAllReady(input: Input, requests: map<string, int>, u: Usage)
    requires MeasuredAs(input, requests, u) && !NeedsFill(Grouped(input), u.ratio) && input.target > 0
    requires Grouped(input).readyCount == input.current
    ensures Tidy(input).Ok? && KeepsDirection(u.ratio, input.current, Tidy(input).value.replicas)
  {
    DirectDecision(input, requests, u);
    DirectKeepsDirection(input.tolerance, u, input.target, input.current);
  }

  lemma DirectKeepsDirection(tolerance: real, u: Usage, target: int, current: nat)
    requires target > 0 && u.ratio == u.utilization as real / target as real
    ensures KeepsDirection(u.ratio, current, Direct(tolerance, u.ratio, current, current))
  {
    CeilKeepsDirection(u.utilization, target, current);
  }

  /** A second utilisation v over n pods settles on the current replicas, or on the least count that carries it. */
  ghost predicate SettlesFor(tolerance: real, ratio: real, v: Usage, target: int, pods: int, current: int,
                             replicas: int) {
    if Abs(1.0 - v.ratio) <= tolerance || (ratio < 1.0 && v.ratio > 1.0) || (ratio > 1.0 && v.ratio < 1.0)
    then replicas == current
    else
      var n := v.utilization * pods;
      if (v.ratio < 1.0 && n > current * target) || (v.ratio > 1.0 && n <= (current - 1) * target)
      then replicas == current
      else (replicas - 1) * target < n <= replicas * target
  }

  lemma SettleSettlesFor(tolerance: real, ratio: real, v: Usage, target: int, pods: int, current: int)
    requires target > 0 && v.ratio == v.utilization as real / target as real
    ensures SettlesFor(tolerance, ratio, v, target, pods, current, Settle(tolerance, ratio, v.ratio, pods, current))
  {
    CeilOfRatio(v.utilization, target, pods);
    CeilOrder(v.utilization, target, pods, current);
  }

  /**
   The rebalance path, exactly: the current replicas inside the tolerance, on a flip of direction and
   where the pods counted would move against it; otherwise the least replicas that carry the pods
   counted, at the second utilisation, at the target.
   */
  lemma RebalancedResult(input: Input, requests: map<string, int>, u: Usage)
    requires MeasuredAs(input, requests, u) && NeedsFill(Grouped(input), u.ratio) && input.target > 0
    requires SecondUsage(input, requests, u.ratio).Some?
    ensures Tidy(input).Ok? && Reports(Tidy(input).value, u)
    ensures SettlesFor(input.tolerance, u.ratio, SecondUsage(input, requests, u.ratio).value, input.target,
                       |Rebalanced(Measured(input), Grouped(input), requests, u.ratio)|, input.current,
                       Tidy(input).value.replicas)
  {
    RebalancedDecision(input, requests, u);
    SettleSettlesFor(input.tolerance, u.ratio, SecondUsage(input, requests, u.ratio).value, input.target,
                     |Rebalanced(Measured(input), Grouped(input), requests, u.ratio)|, input.current);
  }

  lemma SettleKeepsDirection(tolerance: real, ratio: real, newRatio: real, pods: int, current: int)
    requires tolerance >= 0.0 && (ratio == 1.0 ==> newRatio == 1.0)
    ensures KeepsDirection(ratio, current, Settle(tolerance, ratio, newRatio, pods, current))
  {
  }

  /** On the rebalance path the result never moves against the measured usage. */
  lemma {:induction false} DirectionSafety(input: Input, requests: map<string, int>, u: Usage)
    requires MeasuredAs(input, requests, u) && NeedsFill(Grouped(input), u.ratio)
    requires input.tolerance >= 0.0 && Tidy(input).Ok?
    ensures KeepsDirection(u.ratio, input.current, Tidy(input).value.replicas)
  {
    RebalancedDecision(input, requests, u);
    SettleKeepsDirection(input.tolerance, u.ratio, SecondUsage(input, requests, u.ratio).value.ratio,
                         |Rebalanced(Measured(input), Grouped(input), requests, u.ratio)|, input.current);
  }

  // ---------------------------------------------------------------- conservation

  lemma {:induction false} MeasuredIffReady(input: Input, name: string)
    requires DistinctNames(input.pods) && input.metrics.Keys <= PodNames(input.pods)
    ensures name in Measured(input) <==> name in NamesIn(input, IsReady)
  {
    MemberOfClass(input, IsReady, name);
    MemberOfClass(input, IsUnready, name);
    MemberOfClass(input, IsIgnored, name);
    if name in input.metrics {
      var pod :| pod in input.pods && pod.name == name;
      var i :| 0 <= i < |input.pods| && input.pods[i] == pod;
      assert ClassAt(input, i) != IsMissing;
    }
  }

  lemma {:induction false} MeasuredNames(input: Input)
    requires DistinctNames(input.pods) && input.metrics.Keys <= PodNames(input.pods)
    ensures Measured(input).Keys == NamesIn(input, IsReady)
  {
    forall name ensures name in Measured(input).Keys <==> name in NamesIn(input, IsReady) {
      MeasuredIffReady(input, name);
    }
  }

  /** With metrics only for listed pods, the metrics left are those of the ready pods. */
  lemma {:induction false} MeasuredAreReady(input: Input)
    requires DistinctNames(input.pods) && input.metrics.Keys <= PodNames(input.pods)
    ensures Measured(input).Keys == NamesIn(input, IsReady)
    ensures |Measured(input)| == Grouped(input).readyCount
  {
    var names := NamesIn(input, IsReady);
    MeasuredNames(input);
    ClassSize(input, IsReady);
    assert |Measured(input)| == |names|;
  }

  lemma {:induction false} ClassNamesListed(input: Input, class_: PodClass)
    ensures NamesIn(input, class_) <= PodNames(input.pods)
  {
    forall name | name in NamesIn(input, class_) ensures name in PodNames(input.pods) {
      MemberOfClass(input, class_, name);
    }
  }

  lemma {:induction false} MissingHaveNoMetric(input: Input)
    ensures Grouped(input).missing !! Measured(input).Keys
  {
    forall name | name in Grouped(input).missing ensures name !in input.metrics {
      MemberOfClass(input, IsMissing, name);
    }
  }

  /** The pods whose fill the second measurement adds. */
  function Added(g: Groups, ratio: real): set<string> {
    if ratio < 1.0 then g.missing else if ratio > 1.0 then g.missing + g.unready else {}
  }

  lemma {:induction false} AddedPods(input: Input, requests: map<string, int>, ratio: real)
    requires DistinctNames(input.pods) && Requests(input.pods, input.container) == Some(requests)
    ensures var g := Grouped(input);
            && g.missing + g.unready <= requests.Keys && g.missing + g.unready !! Measured(input).Keys
            && g.missing !! g.unready
  {
    ClassNamesListed(input, IsMissing);
    ClassNamesListed(input, IsUnready);
    MissingHaveNoMetric(input);
    ClassesDisjoint(input, IsUnready, IsMissing);
  }

  lemma {:induction false} ZeroFilledTotals(m: PodMetrics, requests: map<string, int>, names: set<string>)
    requires names <= requests.Keys && names !! m.Keys
    ensures MetricsTotal(Filled(m, names, Zeros(names)), requests) == MetricsTotal(m, requests)
    ensures RequestsTotal(Filled(m, names, Zeros(names)), requests)
            == RequestsTotal(m, requests) + Sum(requests, names)
  {
    FilledTotals(m, requests, names, Zeros(names));
    SumConstant(Zeros(names), names, 0);
  }

  /** Totals of the rebalanced metrics: what was measured, plus the fill. */
  lemma {:induction false} RebalancedTotals(input: Input, requests: map<string, int>, ratio: real)
    requires DistinctNames(input.pods) && Requests(input.pods, input.container) == Some(requests)
    ensures var g, m := Grouped(input), Measured(input);
            var filled := Rebalanced(m, g, requests, ratio);
            && filled.Keys == m.Keys + Added(g, ratio)
            && Added(g, ratio) <= requests.Keys && Added(g, ratio) !! m.Keys
            && RequestsTotal(filled, requests) == RequestsTotal(m, requests) + Sum(requests, Added(g, ratio))
            && MetricsTotal(filled, requests)
               == MetricsTotal(m, requests) + if ratio < 1.0 then Sum(requests, Added(g, ratio)) else 0
  {
    var g, m := Grouped(input), Measured(input);
    AddedPods(input, requests, ratio);
    if ratio < 1.0 {
      FilledTotals(m, requests, g.missing, requests);
    } else if ratio > 1.0 {
      ZeroFilledTotals(m, requests, g.missing);
      ZeroFilledTotals(Filled(m, g.missing, Zeros(g.missing)), requests, g.unready);
      SumUnion(requests, g.missing, g.unready);
    }
  }

  /**
   Pod conservation: the decision counts the ready pods at first, every pod that is not ignored after
   a scale-up fill, and the ready and missing ones after a scale-down fill.
   */
  lemma {:induction false} PodConservation(input: Input, requests: map<string, int>, ratio: real)
    requires DistinctNames(input.pods) && input.metrics.Keys <= PodNames(input.pods)
    requires Requests(input.pods, input.container) == Some(requests)
    ensures var g := Grouped(input);
            && |Measured(input)| == g.readyCount
            && |Rebalanced(Measured(input), g, requests, ratio)|
               == (if ratio > 1.0 then |input.pods| - |g.ignored|
                   else if ratio < 1.0 then g.readyCount + |g.missing|
                   else g.readyCount)
  {
    var g, m := Grouped(input), Measured(input);
    var filled := Rebalanced(m, g, requests, ratio);
    MeasuredAreReady(input);
    GroupsPartition(input);
    RebalancedTotals(input, requests, ratio);
    assert |filled| == |filled.Keys| && |m| == |m.Keys|;
    assert |m.Keys + Added(g, ratio)| == |m.Keys| + |Added(g, ratio)|;
    assert |g.missing + g.unready| == |g.missing| + |g.unready|;
  }

  // ---------------------------------------------------------------- the second measurement

  lemma {:induction false} PodRequestNonNegative(containers: seq<Container>, container: string)
    requires forall c :: c in containers ==> c.request.Some? ==> c.request.value >= 0
    ensures PodRequest(containers, container).Some? ==> PodRequest(containers, container).value >= 0
  {
    if containers != [] {
      PodRequestNonNegative(containers[..|containers| - 1], container);
      assert containers[|containers| - 1] in containers;
    }
  }

  lemma {:induction false} RequestsNonNegative(pods: seq<Pod>, container: string)
    requires forall pod :: pod in pods ==> forall c :: c in pod.containers ==> c.request.Some? ==> c.request.value >= 0
    ensures Requests(pods, container).Some? ==>
              forall k :: k in Requests(pods, container).value ==> Requests(pods, container).value[k] >= 0
  {
    if pods != [] {
      RequestsNonNegative(pods[..|pods| - 1], container);
      assert pods[|pods| - 1] in pods;
      PodRequestNonNegative(pods[|pods| - 1].containers, container);
    }
  }

  /** The totals behind a measurement, as amounts. */
  lemma {:induction false} MeasuredTotals(input: Input, requests: map<string, int>, u: Usage)
    requires MeasuredAs(input, requests, u) && Amounts(input)
    ensures var m, r := MetricsTotal(Measured(input), requests), RequestsTotal(Measured(input), requests);
            m >= 0 && r > 0 && u.utilization == Percent(m, r)
    ensures forall k :: k in requests ==> requests[k] >= 0
  {
    RequestsNonNegative(input.pods, input.container);
    SumNonNegative(requests, Matched(Measured(input), requests));
    SumNonNegative(Values(Measured(input)), Matched(Measured(input), requests));
  }

  /** From utilisation u to v after a fill: down on the way up, toward 100% on the way down. */
  ghost predicate Damped(ratio: real, u: int, v: int) {
    if ratio > 1.0 then v <= u
    else if ratio < 1.0 then (if u <= 100 then u <= v <= 100 else 100 <= v <= u)
    else v == u
  }

  lemma FillDamps(ratio: real, m: int, r: int, extra: int, m2: int, r2: int)
    requires FillTotals(ratio, m, r, extra, m2, r2)
    ensures Damped(ratio, Percent(m, r), Percent(m2, r2))
  {
    ZeroFillLowers(m, r, extra);
    if Percent(m, r) <= 100 {
      FullFillRaises(m, r, extra);
    } else {
      FullFillLowersAbove(m, r, extra);
    }
  }

  ghost function SecondUsage(input: Input, requests: map<string, int>, ratio: real): Option<Usage>
    requires input.target != 0
  {
    UsageOf(Rebalanced(Measured(input), Grouped(input), requests, ratio), requests, input.target)
  }

  lemma UsageFromTotals(metrics: PodMetrics, requests: map<string, int>, target: int)
    requires target != 0 && MetricsTotal(metrics, requests) >= 0 && RequestsTotal(metrics, requests) > 0
    ensures UsageOf(metrics, requests, target).Some?
    ensures UsageOf(metrics, requests, target).value.utilization
            == Percent(MetricsTotal(metrics, requests), RequestsTotal(metrics, requests))
  {
  }

  /** The totals of the two measurements. */
  ghost predicate FillTotals(ratio: real, m: int, r: int, extra: int, m2: int, r2: int) {
    && m >= 0 && r > 0 && extra >= 0 && (ratio == 1.0 ==> extra == 0)
    && m2 == (if ratio < 1.0 then m + extra else m) && r2 == r + extra
  }

  lemma {:induction false} SecondTotals(input: Input, requests: map<string, int>, u: Usage) returns (extra: int)
    requires MeasuredAs(input, requests, u) && Amounts(input) && DistinctNames(input.pods)
    ensures var m, filled := Measured(input), Rebalanced(Measured(input), Grouped(input), requests, u.ratio);
            FillTotals(u.ratio, MetricsTotal(m, requests), RequestsTotal(m, requests), extra,
                       MetricsTotal(filled, requests), RequestsTotal(filled, requests))
  {
    var added := Added(Grouped(input), u.ratio);
    MeasuredTotals(input, requests, u);
    RebalancedTotals(input, requests, u.ratio);
    SumNonNegative(requests, added);
    extra := Sum(requests, added);
  }

  /**
   Rebalancing damps: it never fails once the first measurement succeeded, on the way up it never
   raises the utilisation, on the way down it moves it toward 100% without passing it.
   */
  lemma {:induction false} RebalancingDamps(input: Input, requests: map<string, int>, u: Usage)
    requires MeasuredAs(input, requests, u) && Amounts(input) && DistinctNames(input.pods)
    ensures SecondUsage(input, requests, u.ratio).Some?
    ensures Damped(u.ratio, u.utilization, SecondUsage(input, requests, u.ratio).value.utilization)
  {
    var m, filled := Measured(input), Rebalanced(Measured(input), Grouped(input), requests, u.ratio);
    var extra := SecondTotals(input, requests, u);
    UsageFromTotals(m, requests, input.target);
    UsageFromTotals(filled, requests, input.target);
    FillDamps(u.ratio, MetricsTotal(m, requests), RequestsTotal(m, requests), extra,
              MetricsTotal(filled, requests), RequestsTotal(filled, requests));
  }

  /** A decision fails only in the first measurement. */
  lemma {:induction false} SecondMeasurementSucceeds(input: Input, requests: map<string, int>, u: Usage)
    requires MeasuredAs(input, requests, u) && Amounts(input) && DistinctNames(input.pods)
    ensures Tidy(input).Ok?
  {
    RebalancingDamps(input, requests, u);
    if NeedsFill(Grouped(input), u.ratio) {
      RebalancedDecision(input, requests, u);
    } else {
      DirectDecision(input, requests, u);
    }
  }

  // ---------------------------------------------------------------- no overshoot

  lemma {:induction false} EqualRequestsTotal(metrics: PodMetrics, requests: map<string, int>, q: int)
    requires metrics.Keys <= requests.Keys && forall k :: k in requests ==> requests[k] == q
    ensures RequestsTotal(metrics, requests) == |metrics| * q
  {
    assert Matched(metrics, requests) == metrics.Keys;
    SumConstant(requests, metrics.Keys, q);
  }

  /** n pods at a floored utilisation never ask for more than the usage itself does. */
  lemma CeilingWithinUsage(usage: int, n: int, q: int, target: int, bound: int)
    requires usage >= 0 && n > 0 && q > 0 && target > 0
    requires bound * (q * target) >= 100 * usage && n * q > 0
    ensures ReplicasFor(Percent(usage, n * q) as real / target as real, n) <= bound
  {
    var u := usage * 100 / (n * q);
    CeilOfRatio(u, target, n);
    FloorDiv(usage * 100, n * q);
    assert (u * n) * q == u * (n * q);
    assert (bound * target) * q == bound * (q * target);
    assert (u * n - bound * target) * q == (u * n) * q - (bound * target) * q;
    MultipleBelow(u * n - bound * target, q, (u * n - bound * target) * q);
    LeastMultiple(ReplicasFor(u as real / target as real, n), target, u * n, bound);
  }

  lemma {:induction false} WithinUsage(metrics: PodMetrics, requests: map<string, int>, target: int, q: int, bound: int)
    requires target > 0 && q > 0 && (forall k :: k in requests ==> requests[k] == q)
    requires metrics.Keys <= requests.Keys && |metrics| > 0 && MetricsTotal(metrics, requests) >= 0
    requires bound * (q * target) >= 100 * MetricsTotal(metrics, requests)
    ensures UsageOf(metrics, requests, target).Some?
    ensures ReplicasFor(UsageOf(metrics, requests, target).value.ratio, |metrics|) <= bound
  {
    EqualRequestsTotal(metrics, requests, q);
    MulAtLeast(|metrics|, q);
    CeilingWithinUsage(MetricsTotal(metrics, requests), |metrics|, q, target, bound);
  }

  lemma SettleWithin(tolerance: real, ratio: real, newRatio: real, pods: int, current: int, bound: int)
    requires ReplicasFor(newRatio, pods) <= bound
    ensures Settle(tolerance, ratio, newRatio, pods, current) <= Max(current, bound)
  {
  }

  lemma DirectAtMost(tolerance: real, ratio: real, ready: int, current: int, bound: int)
    requires ReplicasFor(ratio, ready) <= bound
    ensures Direct(tolerance, ratio, ready, current) <= Max(current, bound)
  {
  }

  /** The usage is covered: `bound` pods with request q, each at the target, use no less than was measured. */
  ghost predicate Covers(input: Input, requests: map<string, int>, q: int, bound: int) {
    bound * (q * input.target) >= 100 * MetricsTotal(Measured(input), requests)
  }

  lemma {:induction false} DirectWithin(input: Input, requests: map<string, int>, u: Usage, q: int, bound: int)
    requires MeasuredAs(input, requests, u) && Amounts(input) && DistinctNames(input.pods)
    requires input.metrics.Keys <= PodNames(input.pods) && input.target > 0
    requires q > 0 && (forall k :: k in requests ==> requests[k] == q)
    requires Covers(input, requests, q, bound)
    ensures ReplicasFor(u.ratio, Grouped(input).readyCount) <= bound
  {
    MeasuredTotals(input, requests, u);
    MeasuredAreReady(input);
    ClassNamesListed(input, IsReady);
    WithinUsage(Measured(input), requests, input.target, q, bound);
  }

  lemma {:induction false} RebalancedWithin(input: Input, requests: map<string, int>, u: Usage, q: int, bound: int)
    requires MeasuredAs(input, requests, u) && Amounts(input) && DistinctNames(input.pods)
    requires input.metrics.Keys <= PodNames(input.pods) && input.target > 0
    requires q > 0 && (forall k :: k in requests ==> requests[k] == q) && u.ratio > 1.0
    requires Covers(input, requests, q, bound)
    ensures var filled := Rebalanced(Measured(input), Grouped(input), requests, u.ratio);
            var second := SecondUsage(input, requests, u.ratio);
            second.Some? && ReplicasFor(second.value.ratio, |filled|) <= bound
  {
    var m, filled := Measured(input), Rebalanced(Measured(input), Grouped(input), requests, u.ratio);
    MeasuredTotals(input, requests, u);
    MeasuredAreReady(input);
    ClassNamesListed(input, IsReady);
    RebalancedTotals(input, requests, u.ratio);
    var name :| name in m;
    assert name in filled;
    WithinUsage(filled, requests, input.target, q, bound);
  }

  lemma {:induction false} RebalancedDecision(input: Input, requests: map<string, int>, u: Usage)
    requires MeasuredAs(input, requests, u) && NeedsFill(Grouped(input), u.ratio)
    requires SecondUsage(input, requests, u.ratio).Some?
    ensures var filled := Rebalanced(Measured(input), Grouped(input), requests, u.ratio);
            var second := SecondUsage(input, requests, u.ratio).value;
            && Tidy(input) == Ok(Decision(Settle(input.tolerance, u.ratio, second.ratio, |filled|, input.current),
                                          u.utilization, u.average))
            && second.ratio == second.utilization as real / input.target as real
  {
  }

  lemma {:induction false} RebalancedNoOvershoot(input: Input, requests: map<string, int>, u: Usage, q: int, bound: int)
    requires MeasuredAs(input, requests, u) && Amounts(input) && DistinctNames(input.pods)
    requires input.metrics.Keys <= PodNames(input.pods) && input.target > 0
    requires q > 0 && (forall k :: k in requests ==> requests[k] == q) && u.ratio > 1.0
    requires Covers(input, requests, q, bound) && NeedsFill(Grouped(input), u.ratio)
    ensures Tidy(input).Ok? && Tidy(input).value.replicas <= Max(input.current, bound)
  {
    RebalancedWithin(input, requests, u, q, bound);
    RebalancedDecision(input, requests, u);
    var filled := Rebalanced(Measured(input), Grouped(input), requests, u.ratio);
    var newRatio := SecondUsage(input, requests, u.ratio).value.ratio;
    SettleWithin(input.tolerance, u.ratio, newRatio, |filled|, input.current, bound);
  }

  lemma {:induction false} DirectNoOvershoot(input: Input, requests: map<string, int>, u: Usage, q: int, bound: int)
    requires MeasuredAs(input, requests, u) && Amounts(input) && DistinctNames(input.pods)
    requires input.metrics.Keys <= PodNames(input.pods) && input.target > 0
    requires q > 0 && (forall k :: k in requests ==> requests[k] == q)
    requires Covers(input, requests, q, bound) && !NeedsFill(Grouped(input), u.ratio)
    ensures Tidy(input).Ok? && Tidy(input).value.replicas <= Max(input.current, bound)
  {
    DirectWithin(input, requests, u, q, bound);
    DirectDecision(input, requests, u);
    DirectAtMost(input.tolerance, u.ratio, Grouped(input).readyCount, input.current, bound);
  }

  /**
   No overshoot: on the way up, with equal requests q, the result is at most the current replicas or
   any replica count whose pods, running at the target, cover the measured usage.
   */
  lemma {:induction false} NoOvershoot(input: Input, requests: map<string, int>, u: Usage, q: int, bound: int)
    requires MeasuredAs(input, requests, u) && Amounts(input) && DistinctNames(input.pods)
    requires input.metrics.Keys <= PodNames(input.pods) && input.target > 0
    requires q > 0 && (forall k :: k in requests ==> requests[k] == q) && u.ratio > 1.0
    requires Covers(input, requests, q, bound)
    ensures Tidy(input).Ok? && Tidy(input).value.replicas <= Max(input.current, bound)
  {
    if NeedsFill(Grouped(input), u.ratio) {
      RebalancedNoOvershoot(input, requests, u, q, bound);
    } else {
      DirectNoOvershoot(input, requests, u, q, bound);
    }
  }
}
