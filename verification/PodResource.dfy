/** The pod-resource scaler: grouping of pods, rebalancing, and the replica decision. */
module PodResource {
  import opened Common
  import opened Utilization

  datatype Phase = Pending | Running | Succeeded | Failed

  /** The first Ready condition of a pod's status. */
  datatype ReadyCondition = ReadyCondition(isFalse: bool, lastTransition: Time)

  /** A container and its request, in milli-units, for the resource at hand. */
  datatype Container = Container(name: string, request: Option<int>)

  datatype Pod = Pod(
    name: string, deleting: bool, phase: Phase, ready: Option<ReadyCondition>, startTime: Option<Time>,
    containers: seq<Container>)

  datatype PodClass = IsReady | IsUnready | IsMissing | IsIgnored

  datatype Groups = Groups(readyCount: nat, unready: set<string>, missing: set<string>, ignored: set<string>)

  /** What one decision is made from; `clock(i)` is the instant at which pod i is looked at. */
  datatype Input = Input(
    tolerance: real, metrics: PodMetrics, pods: seq<Pod>, cpu: bool, container: string,
    target: int, current: int, clock: nat -> Time)

  datatype Decision = Decision(replicas: int, utilization: int, average: int)

  datatype TidyError = MissingRequest | NoReadyMetrics | NoMatchingMetrics

  const INITIALIZATION_PERIOD := 10 * SECOND
  const READINESS_DELAY := 3 * SECOND

  // ---------------------------------------------------------------- grouping

  predicate Unready(pod: Pod, metric: PodMetric, now: Time) {
    if pod.ready.None? || pod.startTime.None? then true
    else
      var start, c := pod.startTime.value, pod.ready.value;
      if start + INITIALIZATION_PERIOD > now
      then c.isFalse || metric.timestamp < c.lastTransition + metric.window
      else c.isFalse && start + READINESS_DELAY > c.lastTransition
  }

  function Classify(pod: Pod, metrics: PodMetrics, cpu: bool, now: Time): PodClass {
    if pod.deleting || pod.phase == Failed then IsIgnored
    else if pod.phase == Pending then IsUnready
    else if pod.name !in metrics then IsMissing
    else if cpu && Unready(pod, metrics[pod.name], now) then IsUnready
    else IsReady
  }

  function ClassAt(input: Input, i: nat): PodClass
    requires i < |input.pods|
  {
    Classify(input.pods[i], input.metrics, input.cpu, input.clock(i))
  }

  function Classes(input: Input): (classes: seq<PodClass>)
    ensures |classes| == |input.pods| && forall i :: 0 <= i < |classes| ==> classes[i] == ClassAt(input, i)
  {
    seq(|input.pods|, i requires 0 <= i < |input.pods| => ClassAt(input, i))
  }

  function NameList(pods: seq<Pod>): (names: seq<string>)
    ensures |names| == |pods| && forall i :: 0 <= i < |pods| ==> names[i] == pods[i].name
  {
    seq(|pods|, i requires 0 <= i < |pods| => pods[i].name)
  }

  /** The names among the first n whose mark is `c`. */
  function NamesWhere(names: seq<string>, marks: seq<PodClass>, n: nat, c: PodClass): set<string>
    requires n <= |names| == |marks|
  {
    if n == 0 then {}
    else NamesWhere(names, marks, n - 1, c) + if marks[n - 1] == c then {names[n - 1]} else {}
  }

  function CountWhere(marks: seq<PodClass>, n: nat, c: PodClass): nat
    requires n <= |marks|
  {
    if n == 0 then 0
    else CountWhere(marks, n - 1, c) + if marks[n - 1] == c then 1 else 0
  }

  /** The names of the pods that fall in a class. */
  function NamesIn(input: Input, c: PodClass): set<string> {
    NamesWhere(NameList(input.pods), Classes(input), |input.pods|, c)
  }

  function CountIn(input: Input, c: PodClass): nat {
    CountWhere(Classes(input), |input.pods|, c)
  }

  function Grouped(input: Input): Groups {
    Groups(CountIn(input, IsReady), NamesIn(input, IsUnready), NamesIn(input, IsMissing), NamesIn(input, IsIgnored))
  }

  method GroupPods(input: Input) returns (g: Groups)
    ensures g == Grouped(input)
  {
    var readyCount: nat, unready: set<string>, missing: set<string>, ignored: set<string> := 0, {}, {}, {};
    ghost var names, marks := NameList(input.pods), Classes(input);
    for i := 0 to |input.pods|
      invariant readyCount == CountWhere(marks, i, IsReady)
      invariant unready == NamesWhere(names, marks, i, IsUnready)
      invariant missing == NamesWhere(names, marks, i, IsMissing)
      invariant ignored == NamesWhere(names, marks, i, IsIgnored)
    {
      var pod := input.pods[i];
      assert marks[i] == ClassAt(input, i) && names[i] == pod.name;
      if pod.deleting || pod.phase == Failed {
        ignored := ignored + {pod.name};
        continue;
      }
      if pod.phase == Pending {
        unready := unready + {pod.name};
        continue;
      }
      if pod.name !in input.metrics {
        missing := missing + {pod.name};
        continue;
      }
      if input.cpu {
        var isUnready := true;
        if pod.ready.Some? && pod.startTime.Some? {
          var start, condition, metric := pod.startTime.value, pod.ready.value, input.metrics[pod.name];
          if start + INITIALIZATION_PERIOD > input.clock(i) {
            isUnready := condition.isFalse || metric.timestamp < condition.lastTransition + metric.window;
          } else {
            isUnready := condition.isFalse && start + READINESS_DELAY > condition.lastTransition;
          }
        }
        if isUnready {
          unready := unready + {pod.name};
          continue;
        }
      }
      readyCount := readyCount + 1;
    }
    g := Groups(readyCount, unready, missing, ignored);
  }

  ghost predicate DistinctNames(pods: seq<Pod>) {
    forall i, j :: 0 <= i < j < |pods| ==> pods[i].name != pods[j].name
  }

  function PodNames(pods: seq<Pod>): set<string> {
    set pod | pod in pods :: pod.name
  }

  lemma {:induction false} MemberWhere(names: seq<string>, marks: seq<PodClass>, n: nat, c: PodClass, name: string)
    requires n <= |names| == |marks|
    ensures name in NamesWhere(names, marks, n, c) <==> exists i :: 0 <= i < n && names[i] == name && marks[i] == c
  {
    if n > 0 {
      MemberWhere(names, marks, n - 1, c, name);
    }
  }

  lemma {:induction false} MemberOfClass(input: Input, c: PodClass, name: string)
    ensures name in NamesIn(input, c) <==>
            exists i :: 0 <= i < |input.pods| && input.pods[i].name == name && ClassAt(input, i) == c
  {
    var names, marks, n := NameList(input.pods), Classes(input), |input.pods|;
    MemberWhere(names, marks, n, c, name);
    if name in NamesIn(input, c) {
      var i :| 0 <= i < n && names[i] == name && marks[i] == c;
      assert input.pods[i].name == name && ClassAt(input, i) == c;
    }
    if i :| 0 <= i < n && input.pods[i].name == name && ClassAt(input, i) == c {
      assert names[i] == name && marks[i] == c;
    }
  }

  lemma {:induction false} NotAmongEarlier(names: seq<string>, marks: seq<PodClass>, k: nat, n: nat, c: PodClass)
    requires k <= n < |names| == |marks|
    requires forall i, j :: 0 <= i < j < |names| ==> names[i] != names[j]
    ensures names[n] !in NamesWhere(names, marks, k, c)
  {
    if k > 0 {
      NotAmongEarlier(names, marks, k - 1, n, c);
    }
  }

  lemma SizeOfOneMore<T>(s: set<T>, x: T)
    requires x !in s
    ensures |s + {x}| == |s| + 1
  {
  }

  /** The set and the count grow together. */
  lemma {:induction false} WhereOfOneMore(names: seq<string>, marks: seq<PodClass>, n: nat, c: PodClass)
    requires 0 < n <= |names| == |marks|
    ensures marks[n - 1] == c ==>
              && NamesWhere(names, marks, n, c) == NamesWhere(names, marks, n - 1, c) + {names[n - 1]}
              && CountWhere(marks, n, c) == CountWhere(marks, n - 1, c) + 1
    ensures marks[n - 1] != c ==>
              && NamesWhere(names, marks, n, c) == NamesWhere(names, marks, n - 1, c)
              && CountWhere(marks, n, c) == CountWhere(marks, n - 1, c)
  {
    assert NamesWhere(names, marks, n - 1, c) + {} == NamesWhere(names, marks, n - 1, c);
  }

  predicate NewAt(names: seq<string>, marks: seq<PodClass>, c: PodClass, i: nat)
    requires i < |names| == |marks|
  {
    names[i] !in NamesWhere(names, marks, i, c)
  }

  lemma {:induction false} SizeWhere(names: seq<string>, marks: seq<PodClass>, n: nat, c: PodClass)
    requires n <= |names| == |marks|
    requires forall i :: 0 <= i < n ==> NewAt(names, marks, c, i)
    ensures |NamesWhere(names, marks, n, c)| == CountWhere(marks, n, c)
  {
    if n > 0 {
      SizeWhere(names, marks, n - 1, c);
      WhereOfOneMore(names, marks, n, c);
      assert NewAt(names, marks, c, n - 1);
      SizeOfOneMore(NamesWhere(names, marks, n - 1, c), names[n - 1]);
    }
  }

  lemma {:induction false} ClassSize(input: Input, c: PodClass)
    requires DistinctNames(input.pods)
    ensures |NamesIn(input, c)| == CountIn(input, c)
  {
    var names, marks := NameList(input.pods), Classes(input);
    forall i | 0 <= i < |names| ensures NewAt(names, marks, c, i) {
      NotAmongEarlier(names, marks, i, i, c);
    }
    SizeWhere(names, marks, |names|, c);
  }

  lemma {:induction false} MarksCoverAll(marks: seq<PodClass>, n: nat)
    requires n <= |marks|
    ensures CountWhere(marks, n, IsReady) + CountWhere(marks, n, IsUnready)
            + CountWhere(marks, n, IsMissing) + CountWhere(marks, n, IsIgnored) == n
  {
    if n > 0 {
      MarksCoverAll(marks, n - 1);
    }
  }

  lemma {:induction false} ClassesDisjoint(input: Input, a: PodClass, b: PodClass)
    requires DistinctNames(input.pods) && a != b
    ensures NamesIn(input, a) !! NamesIn(input, b)
  {
    forall name | name in NamesIn(input, a) && name in NamesIn(input, b) ensures false {
      MemberOfClass(input, a, name);
      MemberOfClass(input, b, name);
    }
  }

  /** Pods with distinct names fall in exactly one group each. */
  lemma {:induction false} GroupsPartition(input: Input)
    requires DistinctNames(input.pods)
    ensures var g := Grouped(input);
            && g.unready !! g.missing && g.unready !! g.ignored && g.missing !! g.ignored
            && g.readyCount + |g.unready| + |g.missing| + |g.ignored| == |input.pods|
  {
    ClassesDisjoint(input, IsUnready, IsMissing);
    ClassesDisjoint(input, IsUnready, IsIgnored);
    ClassesDisjoint(input, IsMissing, IsIgnored);
    ClassSize(input, IsUnready);
    ClassSize(input, IsMissing);
    ClassSize(input, IsIgnored);
    MarksCoverAll(Classes(input), |input.pods|);
  }

  // ---------------------------------------------------------------- metrics and requests

  /** What is left after the metrics of ignored and unready pods are removed. */
  function Measured(input: Input): PodMetrics {
    input.metrics - Grouped(input).ignored - Grouped(input).unready
  }

  method RemoveMetricsForPods(metrics: PodMetrics, names: set<string>) returns (r: PodMetrics)
    ensures r == metrics - names
  {
    r := metrics;
    var pending := names;
    while pending != {}
      invariant pending <= names && r == metrics - (names - pending)
      decreases |pending|
    {
      var name :| name in pending;
      r := r - {name};
      pending := pending - {name};
    }
    assert names - {} == names;
  }

  /** The sum of the requests of the selected containers, all of them when no name is given. */
  function PodRequest(containers: seq<Container>, container: string): Option<int> {
    if containers == [] then Some(0)
    else
      var c := containers[|containers| - 1];
      match PodRequest(containers[..|containers| - 1], container)
      case None => None
      case Some(sum) =>
        if container != "" && container != c.name then Some(sum)
        else if c.request.None? then None
        else Some(sum + c.request.value)
  }

  function Requests(pods: seq<Pod>, container: string): (r: Option<map<string, int>>)
    ensures r.Some? ==> r.value.Keys == PodNames(pods)
  {
    if pods == [] then Some(map[])
    else
      var pod := pods[|pods| - 1];
      assert pods == pods[..|pods| - 1] + [pod];
      match Requests(pods[..|pods| - 1], container)
      case None => None
      case Some(m) =>
        match PodRequest(pod.containers, container)
        case None => None
        case Some(sum) => Some(m[pod.name := sum])
  }

  method CalculatePodRequests(pods: seq<Pod>, container: string) returns (requests: Option<map<string, int>>)
    ensures requests == Requests(pods, container)
  {
    var m: map<string, int> := map[];
    for i := 0 to |pods|
      invariant Requests(pods[..i], container) == Some(m)
    {
      assert pods[..i + 1][..i] == pods[..i];
      var containers, podSum := pods[i].containers, 0;
      for j := 0 to |containers|
        invariant PodRequest(containers[..j], container) == Some(podSum)
      {
        assert containers[..j + 1][..j] == containers[..j];
        if container == "" || container == containers[j].name {
          if containers[j].request.None? {
            NoPodRequest(containers, container, j + 1);
            NoRequests(pods, container, i + 1);
            return None;
          }
          podSum := podSum + containers[j].request.value;
        }
      }
      assert containers[..|containers|] == containers;
      m := m[pods[i].name := podSum];
    }
    assert pods[..|pods|] == pods;
    return Some(m);
  }

  lemma {:induction false} NoPodRequest(containers: seq<Container>, container: string, n: nat)
    requires n <= |containers| && PodRequest(containers[..n], container).None?
    ensures PodRequest(containers, container).None?
    decreases |containers|
  {
    if n < |containers| {
      assert containers[..|containers| - 1][..n] == containers[..n];
      NoPodRequest(containers[..|containers| - 1], container, n);
    } else {
      assert containers[..n] == containers;
    }
  }

  lemma {:induction false} NoRequests(pods: seq<Pod>, container: string, n: nat)
    requires 0 < n <= |pods| && PodRequest(pods[n - 1].containers, container).None?
    ensures Requests(pods, container).None?
    decreases |pods|
  {
    if n < |pods| {
      NoRequests(pods[..|pods| - 1], container, n);
    }
  }

  // ---------------------------------------------------------------- the decision

  /** The whole replicas that `pods` pods at this ratio amount to. */
  function ReplicasFor(ratio: real, pods: int): int {
    Ceil(ratio * pods as real)
  }

  function Direct(tolerance: real, ratio: real, readyCount: int, current: int): int {
    if Abs(1.0 - ratio) <= tolerance then current else ReplicasFor(ratio, readyCount)
  }

  /** Missing pods count as fully used on the way down, as idle on the way up; so do unready ones on the way up. */
  function Rebalanced(m: PodMetrics, g: Groups, requests: map<string, int>, ratio: real): PodMetrics {
    var withMissing :=
      if ratio < 1.0 then Filled(m, g.missing, requests)
      else if ratio > 1.0 then Filled(m, g.missing, Zeros(g.missing))
      else m;
    if ratio > 1.0 then Filled(withMissing, g.unready, Zeros(g.unready)) else withMissing
  }

  function Settle(tolerance: real, ratio: real, newRatio: real, pods: int, current: int): int {
    if Abs(1.0 - newRatio) <= tolerance || (ratio < 1.0 && newRatio > 1.0) || (ratio > 1.0 && newRatio < 1.0)
    then current
    else
      var replicas := ReplicasFor(newRatio, pods);
      if (newRatio < 1.0 && replicas > current) || (newRatio > 1.0 && replicas < current)
      then current else replicas
  }

  /** Whether the second, rebalanced measurement is made. */
  predicate Rebalances(g: Groups, ratio: real) {
    g.missing != {} || (g.unready != {} && ratio > 1.0)
  }

  /** The decision, from the groups and the metrics that are left. */
  ghost function Concluded(input: Input, g: Groups, m: PodMetrics): Result<Decision, TidyError>
    requires input.target != 0
  {
    match Requests(input.pods, input.container)
    case None => Err(MissingRequest)
    case Some(requests) =>
      if |m| == 0 then Err(NoReadyMetrics)
      else
        match UsageOf(m, requests, input.target)
        case None => Err(NoMatchingMetrics)
        case Some(u) =>
          if !Rebalances(g, u.ratio)
          then Ok(Decision(Direct(input.tolerance, u.ratio, g.readyCount, input.current), u.utilization, u.average))
          else
            var filled := Rebalanced(m, g, requests, u.ratio);
            match UsageOf(filled, requests, input.target)
            case None => Err(NoMatchingMetrics)
            case Some(v) =>
              Ok(Decision(Settle(input.tolerance, u.ratio, v.ratio, |filled|, input.current),
                          u.utilization, u.average))
  }

  ghost function Tidy(input: Input): Result<Decision, TidyError>
    requires input.target != 0
  {
    Concluded(input, Grouped(input), Measured(input))
  }

  method FillPods(metrics: PodMetrics, names: set<string>, fill: map<string, int>) returns (r: PodMetrics)
    ensures r == Filled(metrics, names, fill)
  {
    r := metrics;
    var pending := names;
    assert Filled(metrics, names - pending, fill) == metrics;
    while pending != {}
      invariant pending <= names && r == Filled(metrics, names - pending, fill)
      decreases |pending|
    {
      var name :| name in pending;
      r := r[name := PodMetric(0, 0, if name in fill then fill[name] else 0)];
      pending := pending - {name};
    }
    assert names - {} == names;
  }

  method RebalanceMetrics(metrics: PodMetrics, g: Groups, requests: map<string, int>, ratio: real)
    returns (r: PodMetrics)
    ensures r == Rebalanced(metrics, g, requests, ratio)
  {
    r := metrics;
    if |g.missing| > 0 {
      if ratio < 1.0 {
        r := FillPods(r, g.missing, requests);
      } else if ratio > 1.0 {
        r := FillPods(r, g.missing, Zeros(g.missing));
      }
    }
    if |g.unready| > 0 && ratio > 1.0 {
      r := FillPods(r, g.unready, Zeros(g.unready));
    }
    NothingToFill(metrics, requests);
    NothingToFill(metrics, Zeros({}));
    NothingToFill(r, Zeros({}));
  }

  lemma NothingToFill(metrics: PodMetrics, fill: map<string, int>)
    ensures Filled(metrics, {}, fill) == metrics
  {
  }

  method TidyAndCalculateDesiredReplicas(input: Input) returns (r: Result<Decision, TidyError>)
    requires input.target != 0
    ensures r == Tidy(input)
  {
    var g := GroupPods(input);
    var metrics := RemoveMetricsForPods(input.metrics, g.ignored);
    metrics := RemoveMetricsForPods(metrics, g.unready);
    var requests := CalculatePodRequests(input.pods, input.container);
    if requests.None? {
      return Err(MissingRequest);
    }
    if |metrics| == 0 {
      return Err(NoReadyMetrics);
    }
    var usage := GetResourceUtilizationRatio(metrics, requests.value, input.target);
    if usage.None? {
      return Err(NoMatchingMetrics);
    }
    var ratio := usage.value.ratio;
    if !Rebalances(g, ratio) {
      return Ok(Decision(Direct(input.tolerance, ratio, g.readyCount, input.current),
                         usage.value.utilization, usage.value.average));
    }
    metrics := RebalanceMetrics(metrics, g, requests.value, ratio);
    var newUsage := GetResourceUtilizationRatio(metrics, requests.value, input.target);
    if newUsage.None? {
      return Err(NoMatchingMetrics);
    }
    return Ok(Decision(Settle(input.tolerance, ratio, newUsage.value.ratio, |metrics|, input.current),
                       usage.value.utilization, usage.value.average));
  }
}
