/** Resource utilisation over maps of pod metrics and requests. */
module Utilization {
  import opened Common

  datatype PodMetric = PodMetric(timestamp: Time, window: int, value: int)

  type PodMetrics = map<string, PodMetric>

  /** What a measurement says: utilisation over target, utilisation in percent, average raw value. */
  datatype Usage = Usage(ratio: real, utilization: int, average: int)

  // ---------------------------------------------------------------- sums over maps

  ghost function Sum(f: map<string, int>, keys: set<string>): int
    requires keys <= f.Keys
  {
    if keys == {} then 0
    else
      var k :| k in keys;
      f[k] + Sum(f, keys - {k})
  }

  /** The order of summation does not matter. */
  lemma {:induction false} SumPick(f: map<string, int>, keys: set<string>, k: string)
    requires keys <= f.Keys && k in keys
    ensures Sum(f, keys) == f[k] + Sum(f, keys - {k})
    decreases |keys|
  {
    var j :| j in keys && Sum(f, keys) == f[j] + Sum(f, keys - {j});
    if j != k {
      SumPick(f, keys - {j}, k);
      SumPick(f, keys - {k}, j);
      assert keys - {j} - {k} == keys - {k} - {j};
    }
  }

  lemma {:induction false} SumAdd(f: map<string, int>, keys: set<string>, k: string)
    requires keys <= f.Keys && k in f && k !in keys
    ensures Sum(f, keys + {k}) == Sum(f, keys) + f[k]
  {
    SumPick(f, keys + {k}, k);
    assert keys + {k} - {k} == keys;
  }

  lemma {:induction false} SumUnion(f: map<string, int>, a: set<string>, b: set<string>)
    requires a + b <= f.Keys && a !! b
    ensures Sum(f, a + b) == Sum(f, a) + Sum(f, b)
    decreases |a|
  {
    if a == {} {
      assert a + b == b;
    } else {
      var k :| k in a;
      SumPick(f, a, k);
      SumPick(f, a + b, k);
      SumUnion(f, a - {k}, b);
      assert a + b - {k} == (a - {k}) + b;
    }
  }

  lemma {:induction false} SumAgree(f: map<string, int>, g: map<string, int>, keys: set<string>)
    requires keys <= f.Keys && keys <= g.Keys
    requires forall k :: k in keys ==> f[k] == g[k]
    ensures Sum(f, keys) == Sum(g, keys)
    decreases |keys|
  {
    if keys != {} {
      var k :| k in keys;
      SumPick(f, keys, k);
      SumPick(g, keys, k);
      SumAgree(f, g, keys - {k});
    }
  }

  lemma {:induction false} SumConstant(f: map<string, int>, keys: set<string>, q: int)
    requires keys <= f.Keys
    requires forall k :: k in keys ==> f[k] == q
    ensures Sum(f, keys) == |keys| * q
    decreases |keys|
  {
    if keys != {} {
      var k :| k in keys;
      SumPick(f, keys, k);
      SumConstant(f, keys - {k}, q);
      assert |keys - {k}| == |keys| - 1;
      assert (|keys| - 1) * q + q == |keys| * q;
    }
  }

  lemma {:induction false} SumNonNegative(f: map<string, int>, keys: set<string>)
    requires keys <= f.Keys
    requires forall k :: k in keys ==> f[k] >= 0
    ensures Sum(f, keys) >= 0
    decreases |keys|
  {
    if keys != {} {
      var k :| k in keys;
      SumPick(f, keys, k);
      SumNonNegative(f, keys - {k});
    }
  }

  // ---------------------------------------------------------------- utilisation

  function Values(metrics: PodMetrics): (values: map<string, int>)
    ensures values.Keys == metrics.Keys
  {
    map k | k in metrics :: metrics[k].value
  }

  /** Metrics of pods without a request do not count. */
  function Matched(metrics: PodMetrics, requests: map<string, int>): set<string> {
    metrics.Keys * requests.Keys
  }

  ghost function MetricsTotal(metrics: PodMetrics, requests: map<string, int>): int {
    Sum(Values(metrics), Matched(metrics, requests))
  }

  ghost function RequestsTotal(metrics: PodMetrics, requests: map<string, int>): int {
    Sum(requests, Matched(metrics, requests))
  }

  /** Usage in percent of the request, truncated. */
  function Percent(usage: int, request: int): int
    requires request != 0
  {
    TruncDiv(usage * 100, request)
  }

  ghost function UsageOf(metrics: PodMetrics, requests: map<string, int>, target: int): Option<Usage>
    requires target != 0
  {
    var m, r := MetricsTotal(metrics, requests), RequestsTotal(metrics, requests);
    if r == 0 then None
    else
      var utilization := Percent(m, r);
      Some(Usage(utilization as real / target as real, utilization,
                 TruncDiv(m, |Matched(metrics, requests)|)))
  }

  /** The accumulating loop of the calculation. */
  method AddUp(metrics: PodMetrics, requests: map<string, int>)
    returns (metricsTotal: int, requestsTotal: int, numEntries: int)
    ensures metricsTotal == MetricsTotal(metrics, requests)
    ensures requestsTotal == RequestsTotal(metrics, requests)
    ensures numEntries == |Matched(metrics, requests)|
  {
    metricsTotal, requestsTotal, numEntries := 0, 0, 0;
    var pending := metrics.Keys;
    assert Matched(metrics, requests) - pending == {};
    while pending != {}
      invariant pending <= metrics.Keys
      invariant AddedUp(metrics, requests, pending, metricsTotal, requestsTotal, numEntries)
      decreases |pending|
    {
      var podName :| podName in pending;
      NextEntry(metrics, requests, pending, podName, metricsTotal, requestsTotal, numEntries);
      pending := pending - {podName};
      if podName in requests {
        metricsTotal := metricsTotal + metrics[podName].value;
        requestsTotal := requestsTotal + requests[podName];
        numEntries := numEntries + 1;
      }
    }
    assert Matched(metrics, requests) - {} == Matched(metrics, requests);
  }

  /** m, r and n account for every matched pod that is not pending. */
  ghost predicate AddedUp(metrics: PodMetrics, requests: map<string, int>, pending: set<string>, m: int, r: int,
                          n: int) {
    var done := Matched(metrics, requests) - pending;
    m == Sum(Values(metrics), done) && r == Sum(requests, done) && n == |done|
  }

  lemma {:induction false} NextEntry(metrics: PodMetrics, requests: map<string, int>, pending: set<string>, k: string,
                                     m: int, r: int, n: int)
    requires k in pending && k in metrics && AddedUp(metrics, requests, pending, m, r, n)
    ensures if k in requests
            then AddedUp(metrics, requests, pending - {k}, m + metrics[k].value, r + requests[k], n + 1)
            else AddedUp(metrics, requests, pending - {k}, m, r, n)
  {
    var done := Matched(metrics, requests) - pending;
    if k in requests {
      assert Matched(metrics, requests) - (pending - {k}) == done + {k};
      SumAdd(Values(metrics), done, k);
      SumAdd(requests, done, k);
    } else {
      assert Matched(metrics, requests) - (pending - {k}) == done;
    }
  }

  method GetResourceUtilizationRatio(metrics: PodMetrics, requests: map<string, int>, target: int)
    returns (usage: Option<Usage>)
    requires target != 0
    ensures usage == UsageOf(metrics, requests, target)
  {
    var metricsTotal, requestsTotal, numEntries := AddUp(metrics, requests);
    if requestsTotal == 0 {
      return None;
    }
    var utilization := Percent(metricsTotal, requestsTotal);
    return Some(Usage(utilization as real / target as real, utilization, TruncDiv(metricsTotal, numEntries)));
  }

  // ---------------------------------------------------------------- filling in pods

  /** Give the named pods, which have no metric, the values in `fill`. */
  function Filled(metrics: PodMetrics, names: set<string>, fill: map<string, int>): (r: PodMetrics)
    ensures r.Keys == metrics.Keys + names
    ensures forall k :: k in names ==> r[k].value == if k in fill then fill[k] else 0
    ensures forall k :: k in metrics && k !in names ==> r[k] == metrics[k]
  {
    map k | k in metrics.Keys + names ::
      if k in names then PodMetric(0, 0, if k in fill then fill[k] else 0) else metrics[k]
  }

  /** Filling adds the fill to the measured total and the pods' requests to the requested total. */
  lemma {:induction false} FilledTotals(metrics: PodMetrics, requests: map<string, int>,
                                        names: set<string>, fill: map<string, int>)
    requires names !! metrics.Keys && names <= requests.Keys && names <= fill.Keys
    ensures MetricsTotal(Filled(metrics, names, fill), requests) == MetricsTotal(metrics, requests) + Sum(fill, names)
    ensures RequestsTotal(Filled(metrics, names, fill), requests)
            == RequestsTotal(metrics, requests) + Sum(requests, names)
  {
    var filled := Filled(metrics, names, fill);
    var matched := Matched(metrics, requests);
    assert Matched(filled, requests) == matched + names;
    SumUnion(Values(filled), matched, names);
    SumUnion(requests, matched, names);
    SumAgree(Values(filled), Values(metrics), matched);
    SumAgree(Values(filled), fill, names);
  }

  function Zeros(names: set<string>): (z: map<string, int>)
    ensures z.Keys == names && forall k :: k in names ==> z[k] == 0
  {
    map k | k in names :: 0
  }

  // ---------------------------------------------------------------- damping

  /** Floor division: the quotient is the largest q with q * b <= a. */
  lemma FloorDiv(a: int, b: int)
    requires b > 0
    ensures (a / b) * b <= a < (a / b) * b + b
  {
  }

  lemma FloorAtLeast(a: int, b: int, q: int)
    requires b > 0 && q * b <= a
    ensures q <= a / b
  {
    MultipleBelow(q - a / b, b, q * b - (a / b) * b);
  }

  lemma FloorAtMost(a: int, b: int, q: int)
    requires b > 0 && a < q * b + b
    ensures a / b <= q
  {
    MultipleBelow(a / b - q, b, (a / b) * b - q * b);
  }

  lemma Distribute(u: int, r: int, extra: int)
    ensures u * (r + extra) == u * r + u * extra
  {
  }

  lemma Product(a: int, b: int)
    requires a >= 0 && b >= 0
    ensures a * b >= 0
  {
  }

  /** More requests under the same usage never raise the utilisation. */
  lemma ZeroFillLowers(m: int, r: int, extra: int)
    requires m >= 0 && r > 0 && extra >= 0
    ensures Percent(m, r + extra) <= Percent(m, r)
  {
    var u := (m * 100) / r;
    FloorAtLeast(m * 100, r, 0);
    FloorDiv(m * 100, r);
    Distribute(u, r, extra);
    Product(u, extra);
    FloorAtMost(m * 100, r + extra, u);
  }

  /** Usage equal to the extra requests pulls a utilisation of at most 100% up toward 100%. */
  lemma FullFillRaises(m: int, r: int, extra: int)
    requires m >= 0 && r > 0 && extra >= 0 && Percent(m, r) <= 100
    ensures Percent(m, r) <= Percent(m + extra, r + extra) <= 100
  {
    var u := (m * 100) / r;
    FloorDiv(m * 100, r);
    Distribute(u, r, extra);
    Product(100 - u, extra);
    assert (100 - u) * extra == 100 * extra - u * extra;
    FloorAtLeast((m + extra) * 100, r + extra, u);
    assert m * 100 < 100 * r + r by {
      Product(100 - u, r);
      assert (100 - u) * r == 100 * r - u * r;
    }
    FloorAtMost((m + extra) * 100, r + extra, 100);
  }

  /** Over 100% the same fill pulls the utilisation down, never below 100%. */
  lemma FullFillLowersAbove(m: int, r: int, extra: int)
    requires m >= 0 && r > 0 && extra >= 0 && Percent(m, r) >= 100
    ensures 100 <= Percent(m + extra, r + extra) <= Percent(m, r)
  {
    var u := (m * 100) / r;
    FloorDiv(m * 100, r);
    Distribute(u, r, extra);
    Product(u - 100, extra);
    assert (u - 100) * extra == u * extra - 100 * extra;
    Product(u - 100, r);
    assert (u - 100) * r == u * r - 100 * r;
    FloorAtLeast((m + extra) * 100, r + extra, 100);
    FloorAtMost((m + extra) * 100, r + extra, u);
  }
}
