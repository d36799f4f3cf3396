/** Which pods the pod-resource scaler counts, what it adds up for them, and when it fails. */
module PodResourceLaws {
  import opened Common
  import opened Utilization
  import opened PodResource
  import opened PodResourceProperties

  // ---------------------------------------------------------------- the groups

  /** Whatever its metric, the pod does not count. */
  predicate Leaving(pod: Pod) {
    pod.deleting || pod.phase == Failed
  }

  /**
   On CPU, a metric tells nothing of a pod that may still be starting: its Ready condition or its start is
   unknown; it is not ready and within 10 seconds of its start, or has not changed since the first 3; or it
   was sampled within those 10 seconds, less than a metric window after it last changed.
   */
  predicate Starting(pod: Pod, metric: PodMetric, now: Time) {
    || pod.ready.None? || pod.startTime.None?
    || (pod.ready.value.isFalse
        && (now < pod.startTime.value + 10 * SECOND
            || pod.ready.value.lastTransition < pod.startTime.value + 3 * SECOND))
    || (now < pod.startTime.value + 10 * SECOND && metric.timestamp < pod.ready.value.lastTransition + metric.window)
  }

  predicate IgnoredAt(input: Input, i: nat)
    requires i < |input.pods|
  {
    Leaving(input.pods[i])
  }

  predicate UnreadyAt(input: Input, i: nat)
    requires i < |input.pods|
  {
    var pod := input.pods[i];
    && !Leaving(pod)
    && (pod.phase == Pending
        || (input.cpu && pod.name in input.metrics && Starting(pod, input.metrics[pod.name], input.clock(i))))
  }

  predicate MissingAt(input: Input, i: nat)
    requires i < |input.pods|
  {
    !Leaving(input.pods[i]) && input.pods[i].phase != Pending && input.pods[i].name !in input.metrics
  }

  predicate ReadyAt(input: Input, i: nat)
    requires i < |input.pods|
  {
    var pod := input.pods[i];
    && !Leaving(pod) && pod.phase != Pending && pod.name in input.metrics
    && (input.cpu ==> !Starting(pod, input.metrics[pod.name], input.clock(i)))
  }

  lemma ClassMeans(input: Input, i: nat)
    requires i < |input.pods|
    ensures ClassAt(input, i) == IsIgnored <==> IgnoredAt(input, i)
    ensures ClassAt(input, i) == IsUnready <==> UnreadyAt(input, i)
    ensures ClassAt(input, i) == IsMissing <==> MissingAt(input, i)
    ensures ClassAt(input, i) == IsReady <==> ReadyAt(input, i)
  {
  }

  /** The positions below n of a mark. */
  function Positions(marks: seq<PodClass>, n: nat, c: PodClass): set<int>
    requires n <= |marks|
  {
    set i | 0 <= i < n && marks[i] == c
  }

  lemma {:induction false} CountIsSize(marks: seq<PodClass>, n: nat, c: PodClass)
    requires n <= |marks|
    ensures CountWhere(marks, n, c) == |Positions(marks, n, c)|
  {
    if n == 0 {
      assert Positions(marks, 0, c) == {};
    } else {
      var before := Positions(marks, n - 1, c);
      CountIsSize(marks, n - 1, c);
      SizeOfOneMore(before, n - 1);
      if marks[n - 1] == c {
        assert Positions(marks, n, c) == before + {n - 1};
      } else {
        assert Positions(marks, n, c) == before;
      }
    }
  }

  /** Each group holds the names of its pods, and the ready ones are counted. */
  lemma {:induction false} GroupsLaw(input: Input)
    ensures var g := Grouped(input);
            && (forall name :: name in g.ignored <==>
                  exists i :: 0 <= i < |input.pods| && input.pods[i].name == name && IgnoredAt(input, i))
            && (forall name :: name in g.unready <==>
                  exists i :: 0 <= i < |input.pods| && input.pods[i].name == name && UnreadyAt(input, i))
            && (forall name :: name in g.missing <==>
                  exists i :: 0 <= i < |input.pods| && input.pods[i].name == name && MissingAt(input, i))
            && g.readyCount == |set i | 0 <= i < |input.pods| && ReadyAt(input, i)|
  {
    forall i | 0 <= i < |input.pods|
      ensures ClassAt(input, i) == IsIgnored <==> IgnoredAt(input, i)
      ensures ClassAt(input, i) == IsUnready <==> UnreadyAt(input, i)
      ensures ClassAt(input, i) == IsMissing <==> MissingAt(input, i)
      ensures ClassAt(input, i) == IsReady <==> ReadyAt(input, i)
    {
      ClassMeans(input, i);
    }
    forall c, name
      ensures name in NamesIn(input, c) <==>
              exists i :: 0 <= i < |input.pods| && input.pods[i].name == name && ClassAt(input, i) == c
    {
      MemberOfClass(input, c, name);
    }
    CountIsSize(Classes(input), |input.pods|, IsReady);
    assert Positions(Classes(input), |input.pods|, IsReady)
        == (set i | 0 <= i < |input.pods| && ReadyAt(input, i));
  }

  /** The same input with another value for one pod's metric. */
  function Revalued(input: Input, name: string, value: int): Input
    requires name in input.metrics
  {
    input.(metrics := input.metrics[name := input.metrics[name].(value := value)])
  }

  lemma {:induction false} RevaluedGroups(input: Input, name: string, value: int)
    requires name in input.metrics
    ensures Grouped(Revalued(input, name, value)) == Grouped(input)
  {
    var other := Revalued(input, name, value);
    forall i | 0 <= i < |input.pods| ensures ClassAt(other, i) == ClassAt(input, i) {
      ClassMeans(input, i);
      ClassMeans(other, i);
    }
    assert Classes(other) == Classes(input);
  }

  lemma {:induction false} RevaluedMetrics(input: Input, name: string, value: int)
    requires name in input.metrics && (name in Grouped(input).ignored || name in Grouped(input).unready)
    ensures Measured(Revalued(input, name, value)) == Measured(input)
  {
    var other, g := Revalued(input, name, value), Grouped(input);
    RevaluedGroups(input, name, value);
    assert other.metrics - g.ignored - g.unready == input.metrics - g.ignored - g.unready;
  }

  lemma ConcludedAlike(input: Input, other: Input, g: Groups, m: PodMetrics)
    requires input.target != 0 && other == input.(metrics := other.metrics)
    ensures Concluded(other, g, m) == Concluded(input, g, m)
  {
  }

  lemma {:induction false} UncountedName(input: Input, i: nat)
    requires i < |input.pods| && (IgnoredAt(input, i) || UnreadyAt(input, i))
    ensures input.pods[i].name in Grouped(input).ignored || input.pods[i].name in Grouped(input).unready
  {
    ClassMeans(input, i);
    MemberOfClass(input, ClassAt(input, i), input.pods[i].name);
  }

  /** Non-interference: what an ignored or unready pod uses has no influence on the decision. */
  lemma {:induction false} UncountedPodsDoNotMatter(input: Input, i: nat, value: int)
    requires input.target != 0 && i < |input.pods| && input.pods[i].name in input.metrics
    requires IgnoredAt(input, i) || UnreadyAt(input, i)
    ensures Tidy(Revalued(input, input.pods[i].name, value)) == Tidy(input)
  {
    var name := input.pods[i].name;
    UncountedName(input, i);
    RevaluedGroups(input, name, value);
    RevaluedMetrics(input, name, value);
    ConcludedAlike(input, Revalued(input, name, value), Grouped(input), Measured(input));
  }

  // ---------------------------------------------------------------- requests

  /** The request of a container counts when no name is asked for, or this one. */
  predicate Selected(c: Container, container: string) {
    container == "" || container == c.name
  }

  /** One container after another: the request of a pod is the sum over its selected containers. */
  lemma {:induction false} RequestOfOneMore(containers: seq<Container>, c: Container, container: string)
    ensures PodRequest([], container) == Some(0)
    ensures PodRequest(containers + [c], container) ==
            if !Selected(c, container) then PodRequest(containers, container)
            else if PodRequest(containers, container).None? || c.request.None? then None
            else Some(PodRequest(containers, container).value + c.request.value)
  {
    assert (containers + [c])[..|containers|] == containers;
  }

  /** A pod has a request unless a selected container has none. */
  lemma {:induction false} RequestIff(containers: seq<Container>, container: string)
    ensures PodRequest(containers, container).None? <==>
            exists c :: c in containers && Selected(c, container) && c.request.None?
  {
    if containers != [] {
      var front, last := containers[..|containers| - 1], containers[|containers| - 1];
      assert containers == front + [last];
      RequestIff(front, container);
      RequestOfOneMore(front, last, container);
    }
  }

  /** The map holds the request of every pod under its name. */
  ghost predicate RequestsOf(requests: map<string, int>, pods: seq<Pod>, container: string) {
    && requests.Keys == PodNames(pods)
    && forall pod :: pod in pods ==> pod.name in requests
                                     && Some(requests[pod.name]) == PodRequest(pod.containers, container)
  }

  lemma {:induction false} OneMoreRequest(requests: map<string, int>, front: seq<Pod>, last: Pod, container: string)
    requires RequestsOf(requests, front, container) && PodRequest(last.containers, container).Some?
    requires last.name !in PodNames(front)
    ensures RequestsOf(requests[last.name := PodRequest(last.containers, container).value], front + [last], container)
  {
    var more := requests[last.name := PodRequest(last.containers, container).value];
    assert PodNames(front + [last]) == PodNames(front) + {last.name};
    forall pod | pod in front + [last]
      ensures pod.name in more && Some(more[pod.name]) == PodRequest(pod.containers, container)
    {
      if pod in front {
        assert pod.name in PodNames(front);
      }
    }
  }

  lemma {:induction false} LastNameIsNew(pods: seq<Pod>)
    requires pods != [] && DistinctNames(pods)
    ensures pods[|pods| - 1].name !in PodNames(pods[..|pods| - 1])
  {
    var front, last := pods[..|pods| - 1], pods[|pods| - 1];
    forall pod | pod in front ensures pod.name != last.name {
      var i :| 0 <= i < |front| && front[i] == pod;
      assert pods[i] == pod && pods[|pods| - 1] == last;
    }
  }

  /** The requests are those of the pods, by name, and there are none at all if a pod has none. */
  lemma {:induction false} RequestsLaw(pods: seq<Pod>, container: string)
    requires DistinctNames(pods)
    ensures match Requests(pods, container)
            case None => exists pod :: pod in pods && PodRequest(pod.containers, container).None?
            case Some(requests) => RequestsOf(requests, pods, container)
  {
    if pods != [] {
      var front, last := pods[..|pods| - 1], pods[|pods| - 1];
      assert pods == front + [last];
      RequestsLaw(front, container);
      LastNameIsNew(pods);
      var before := Requests(front, container);
      if before.Some? && PodRequest(last.containers, container).Some? {
        OneMoreRequest(before.value, front, last, container);
      }
    }
  }

  // ---------------------------------------------------------------- the measurement

  /** q is the quotient of two amounts, rounded down. */
  predicate IsFloor(q: int, a: int, b: int) {
    q * b <= a < q * b + b
  }

  /**
   A measurement adds up usage and requests over the pods that have both. Utilisation is the usage in
   percent of the requests, the average is the usage by those pods, both rounded down.
   */
  lemma {:induction false} UsageLaw(metrics: PodMetrics, requests: map<string, int>, target: int)
    requires target != 0
    ensures var both := metrics.Keys * requests.Keys;
            var usage, requested := Sum(map k | k in metrics :: metrics[k].value, both), Sum(requests, both);
            match UsageOf(metrics, requests, target)
            case None => requested == 0
            case Some(u) =>
              && requested != 0 && u.ratio == u.utilization as real / target as real
              && (usage >= 0 && requested > 0 ==>
                    IsFloor(u.utilization, usage * 100, requested) && IsFloor(u.average, usage, |both|))
  {
    var both := metrics.Keys * requests.Keys;
    assert Matched(metrics, requests) == both;
    assert Values(metrics) == map k | k in metrics :: metrics[k].value;
    var usage, requested := Sum(Values(metrics), both), Sum(requests, both);
    if usage >= 0 && requested > 0 {
      assert both != {};
      FloorDiv(usage * 100, requested);
      FloorDiv(usage, |both|);
    }
  }

  /** When there is no decision, for amounts and distinct names: only the first measurement can fail. */
  lemma {:induction false} FirstFailures(input: Input)
    requires input.target != 0 && Amounts(input) && DistinctNames(input.pods)
    ensures var requests, m := Requests(input.pods, input.container), Measured(input);
            if requests.None? then Tidy(input) == Err(MissingRequest)
            else if |m| == 0 then Tidy(input) == Err(NoReadyMetrics)
            else if UsageOf(m, requests.value, input.target).None? then Tidy(input) == Err(NoMatchingMetrics)
            else Tidy(input).Ok?
  {
    var requests, m := Requests(input.pods, input.container), Measured(input);
    if requests.Some? && |m| > 0 && UsageOf(m, requests.value, input.target).Some? {
      SecondMeasurementSucceeds(input, requests.value, UsageOf(m, requests.value, input.target).value);
    }
  }

  /** Every metric is that of an ignored or an unready pod. */
  ghost predicate NothingCounts(input: Input) {
    forall name :: name in input.metrics ==>
      exists i :: 0 <= i < |input.pods| && input.pods[i].name == name && (IgnoredAt(input, i) || UnreadyAt(input, i))
  }

  lemma {:induction false} NothingCountsIff(input: Input)
    ensures NothingCounts(input) <==> |Measured(input)| == 0
  {
    GroupsLaw(input);
    var g, m := Grouped(input), Measured(input);
    if NothingCounts(input) {
      forall name ensures name !in m {
      }
      assert m == map[];
    }
    if |m| == 0 {
      forall name | name in input.metrics ensures name in g.ignored || name in g.unready {
        assert name !in m;
      }
    }
  }

  ghost predicate LacksRequest(input: Input) {
    exists pod :: pod in input.pods && PodRequest(pod.containers, input.container).None?
  }

  /**
   When there is no decision, and why, for amounts and distinct names: a pod without a request, no metric
   of a pod that counts, or no request behind the metrics that do; in this order.
   */
  lemma {:induction false} FailsExactlyWhen(input: Input)
    requires input.target != 0 && Amounts(input) && DistinctNames(input.pods)
    ensures Tidy(input) == Err(MissingRequest) <==> LacksRequest(input)
    ensures Tidy(input) == Err(NoReadyMetrics) <==> !LacksRequest(input) && NothingCounts(input)
    ensures Tidy(input) == Err(NoMatchingMetrics) <==>
              && !LacksRequest(input) && !NothingCounts(input)
              && RequestsTotal(Measured(input), Requests(input.pods, input.container).value) == 0
  {
    RequestsLaw(input.pods, input.container);
    NothingCountsIff(input);
    FirstFailures(input);
  }
}
