/** The Prometheus scaler: one calculation, its failure modes, and what a calculation means. */
module Prometheus {
  import opened Common
  import opened TargetStatuses

  datatype FailureMode = FailAsError | FailAsZero | FailAsLastValue | UnknownMode

  /** The answer of the query client; a failed query comes with a value too (the real client's is -1). */
  datatype Query = Answered(value: real) | Failed(value: real)

  datatype Scaler = Scaler(pluginName: string, tolerance: real)

  datatype Settings = Settings(query: string, targetName: string, threshold: real, failureMode: FailureMode)

  datatype Output = Output(desiredReplicas: int, managed: seq<string>)

  datatype ScalerError =
    | EmptyQuery
    | ThresholdNotPositive
    | QueryFailed
    | NoLastValue
    | NilAverageValue
    | UnknownFailureMode

  // ---------------------------------------------------------------- one calculation

  function TruncReal(x: real): int {
    if x >= 0.0 then x.Floor else -((-x).Floor)
  }

  /** The change is too small to act on. */
  predicate InBand(average: real, threshold: real, tolerance: real)
    requires threshold > 0.0
  {
    Abs(100.0 - (average / threshold) * 100.0) < tolerance * 100.0
  }

  /** The whole replicas that `current` replicas at this average amount to at the threshold. */
  function Scaled(average: real, threshold: real, current: int): int
    requires threshold > 0.0
  {
    Ceil((average / threshold) * current as real)
  }

  function FromAverage(average: real, threshold: real, tolerance: real, current: int): int
    requires threshold > 0.0
  {
    if InBand(average, threshold, tolerance) then current else Scaled(average, threshold, current)
  }

  /** What a calculation yields, and the statuses it leaves. */
  datatype Outcome = Outcome(result: Result<Output, ScalerError>, targets: Targets)

  function Stored(s: Scaler, settings: Settings, desired: int, average: real): TargetStatus {
    TargetStatus(settings.targetName, s.pluginName, desired,
                 MetricTarget(Some(TruncReal(average * 1000.0)), None))
  }

  function Calculate(s: Scaler, settings: Settings, current: int, query: Query, targets: Targets): Outcome
    requires settings.threshold > 0.0
  {
    if current == 0 then Outcome(Ok(Output(0, [])), targets)
    else
      var managed := [settings.targetName];
      match query
      case Answered(value) =>
        var average := if value == 0.0 then 0.0 else value / current as real;
        var desired := if value == 0.0 then 0 else FromAverage(average, settings.threshold, s.tolerance, current);
        Outcome(Ok(Output(desired, managed)), Set(targets, Stored(s, settings, desired, average)))
      case Failed(value) =>
        match settings.failureMode
        case FailAsError => Outcome(Err(QueryFailed), targets)
        case FailAsZero => Outcome(Ok(Output(0, managed)), targets)
        case UnknownMode => Outcome(Err(UnknownFailureMode), targets)
        case FailAsLastValue =>
          match Lookup(targets, settings.targetName)
          case None => Outcome(Err(NoLastValue), targets)
          case Some(status) =>
            match status.metric.averageValueMilli
            case None => Outcome(Err(NilAverageValue), targets)
            case Some(milli) =>
              var desired := if value == 0.0 then 0
                             else FromAverage(milli as real / 1000.0, settings.threshold, s.tolerance, current);
              Outcome(Ok(Output(desired, managed)), targets)
  }

  method CalculateDesiredReplicas(s: Scaler, settings: Settings, current: int, query: Query, targets: Targets)
    returns (result: Result<Output, ScalerError>, newTargets: Targets)
    requires settings.threshold > 0.0
    ensures Outcome(result, newTargets) == Calculate(s, settings, current, query, targets)
  {
    newTargets := targets;
    if current == 0 {
      result := Ok(Output(0, []));
      return;
    }
    var averageValue: Option<real> := None;
    var desiredReplicas := current;
    var shouldUpdateAverageValue := true;
    var value := query.value;
    if query.Failed? {
      shouldUpdateAverageValue := false;
      match settings.failureMode {
        case FailAsError =>
          result := Err(QueryFailed);
          return;
        case FailAsLastValue =>
          var status := GetTargetStatus(targets, settings.targetName);
          if status.None? {
            result := Err(NoLastValue);
            return;
          }
          if status.value.metric.averageValueMilli.None? {
            result := Err(NilAverageValue);
            return;
          }
          averageValue := Some(status.value.metric.averageValueMilli.value as real / 1000.0);
        case FailAsZero =>
          value := 0.0;
        case UnknownMode =>
          result := Err(UnknownFailureMode);
          return;
      }
    }
    if value == 0.0 {
      desiredReplicas := 0;
      averageValue := Some(0.0);
    } else {
      if averageValue.None? {
        averageValue := Some(value / current as real);
      }
      if !InBand(averageValue.value, settings.threshold, s.tolerance) {
        desiredReplicas := Scaled(averageValue.value, settings.threshold, current);
      }
    }
    if shouldUpdateAverageValue {
      newTargets := SetTargetStatus(newTargets, Stored(s, settings, desiredReplicas, averageValue.value));
    }
    result := Ok(Output(desiredReplicas, [settings.targetName]));
  }

  /** The scaler's entry point: settings are checked before anything is queried. */
  method Get(s: Scaler, settings: Settings, current: int, query: Query, targets: Targets)
    returns (result: Result<Output, ScalerError>, newTargets: Targets)
    ensures settings.query == "" ==> result == Err(EmptyQuery)
    ensures settings.query != "" && settings.threshold <= 0.0 ==> result == Err(ThresholdNotPositive)
    ensures if settings.query == "" || settings.threshold <= 0.0 then newTargets == targets
            else Outcome(result, newTargets) == Calculate(s, settings, current, query, targets)
  {
    if settings.query == "" {
      return Err(EmptyQuery), targets;
    }
    if settings.threshold <= 0.0 {
      return Err(ThresholdNotPositive), targets;
    }
    result, newTargets := CalculateDesiredReplicas(s, settings, current, query, targets);
  }

  /** The average is stored in thousandths, truncated toward zero. */
  predicate IsMilli(milli: int, average: real) {
    if average >= 0.0 then milli as real <= average * 1000.0 < milli as real + 1.0
    else milli as real - 1.0 < average * 1000.0 <= milli as real
  }

  /** Without replicas nothing is calculated, queried value and failures or not. */
  lemma NoReplicas(s: Scaler, settings: Settings, query: Query, targets: Targets)
    requires settings.threshold > 0.0
    ensures Calculate(s, settings, 0, query, targets) == Outcome(Ok(Output(0, [])), targets)
  {
  }

  /** A successful query writes what it returns, and its average, under the target's name. */
  lemma SuccessWrites(s: Scaler, settings: Settings, current: int, value: real, targets: Targets)
    requires settings.threshold > 0.0 && current != 0
    ensures var r := Calculate(s, settings, current, Answered(value), targets);
            && r.result.Ok? && r.result.value.managed == [settings.targetName]
            && (value == 0.0 ==> r.result.value.desiredReplicas == 0)
            && exists milli :: IsMilli(milli, value / current as real) && r.targets ==
                 Set(targets, TargetStatus(settings.targetName, s.pluginName, r.result.value.desiredReplicas,
                                           MetricTarget(Some(milli), None)))
  {
    var average := if value == 0.0 then 0.0 else value / current as real;
    assert average == value / current as real;
    assert IsMilli(TruncReal(average * 1000.0), average);
  }

  /** The replicas for an average: none if idle, the current ones in the band, or the least that carry it. */
  ghost predicate IsForAverage(s: Scaler, settings: Settings, current: int, average: real, idle: bool, n: int)
    requires settings.threshold > 0.0
  {
    var (low, high) := ((1.0 - s.tolerance) * settings.threshold, (1.0 + s.tolerance) * settings.threshold);
    if idle then n == 0
    else if low < average < high then n == current
    else IsLeastCover(n, average * current as real, settings.threshold)
  }

  /** What a failed query returns, by the mode; the last value is none if the failed query said zero. */
  ghost predicate FailsAs(s: Scaler, settings: Settings, current: int, value: real, targets: Targets,
                          r: Result<Output, ScalerError>)
    requires settings.threshold > 0.0
  {
    match settings.failureMode
    case FailAsError => r == Err(QueryFailed)
    case UnknownMode => r == Err(UnknownFailureMode)
    case FailAsZero => r == Ok(Output(0, [settings.targetName]))
    case FailAsLastValue =>
      match Lookup(targets, settings.targetName)
      case None => r == Err(NoLastValue)
      case Some(status) =>
        match status.metric.averageValueMilli
        case None => r == Err(NilAverageValue)
        case Some(milli) =>
          && r.Ok? && r.value.managed == [settings.targetName]
          && IsForAverage(s, settings, current, milli as real / 1000.0, value == 0.0, r.value.desiredReplicas)
  }

  lemma ForAverage(s: Scaler, settings: Settings, current: int, average: real, idle: bool)
    requires settings.threshold > 0.0
    ensures IsForAverage(s, settings, current, average, idle,
                         if idle then 0 else FromAverage(average, settings.threshold, s.tolerance, current))
  {
    BandIff(average, settings.threshold, s.tolerance);
    ScaledIsLeast(average, settings.threshold, current, average * current as real);
  }

  /** A failed query writes nothing, and returns an error, no replicas, or what the stored average asks for. */
  lemma FailureModes(s: Scaler, settings: Settings, current: int, value: real, targets: Targets)
    requires settings.threshold > 0.0 && current != 0
    ensures var r := Calculate(s, settings, current, Failed(value), targets);
            r.targets == targets && FailsAs(s, settings, current, value, targets, r.result)
  {
    if settings.failureMode == FailAsLastValue && Lookup(targets, settings.targetName).Some? {
      var milli := Lookup(targets, settings.targetName).value.metric.averageValueMilli;
      if milli.Some? {
        ForAverage(s, settings, current, milli.value as real / 1000.0, value == 0.0);
      }
    }
  }

  // ---------------------------------------------------------------- minimality and convergence

  /** What n replicas carry when each is at the threshold. */
  function Carried(n: int, threshold: real): real {
    n as real * threshold
  }

  /** n replicas at the threshold carry the value, n - 1 do not. */
  ghost predicate IsLeastCover(n: int, value: real, threshold: real) {
    Carried(n - 1, threshold) < value <= Carried(n, threshold)
  }

  lemma CarriedOrder(n: int, m: int, threshold: real)
    requires threshold > 0.0
    ensures n < m <==> Carried(n, threshold) < Carried(m, threshold)
  {
    ScaleOrder(n as real, m as real, threshold);
  }

  lemma CeilCovers(x: real, n: int, threshold: real, value: real)
    requires threshold > 0.0 && n == Ceil(x) && x * threshold == value
    ensures IsLeastCover(n, value, threshold)
  {
    ScaleOrder((n - 1) as real, x, threshold);
    ScaleOrder(n as real, x, threshold);
  }

  lemma ScaledIsLeast(average: real, threshold: real, current: int, value: real)
    requires threshold > 0.0 && value == average * current as real
    ensures IsLeastCover(Scaled(average, threshold, current), value, threshold)
  {
    var ratio := average / threshold;
    assert ratio * threshold == average;
    RatioTimes(ratio, average, threshold, current as real);
    CeilCovers(ratio * current as real, Scaled(average, threshold, current), threshold, value);
  }

  lemma LeastCoverUnique(n: int, m: int, value: real, threshold: real)
    requires threshold > 0.0 && IsLeastCover(n, value, threshold) && IsLeastCover(m, value, threshold)
    ensures n == m
  {
    CarriedOrder(n - 1, m, threshold);
    CarriedOrder(m - 1, n, threshold);
  }

  /** The band, as an interval around the threshold: both edges are outside. */
  lemma BandIff(average: real, threshold: real, tolerance: real)
    requires threshold > 0.0
    ensures InBand(average, threshold, tolerance) <==>
            (1.0 - tolerance) * threshold < average < (1.0 + tolerance) * threshold
  {
    var ratio := average / threshold;
    assert ratio * threshold == average;
    BandOfRatio(ratio, tolerance);
    BandScales(ratio, average, threshold, tolerance);
  }

  lemma BandOfRatio(ratio: real, tolerance: real)
    ensures Abs(100.0 - ratio * 100.0) < tolerance * 100.0 <==> 1.0 - tolerance < ratio < 1.0 + tolerance
  {
  }

  lemma BandScales(ratio: real, average: real, threshold: real, tolerance: real)
    requires threshold > 0.0 && ratio * threshold == average
    ensures 1.0 - tolerance < ratio < 1.0 + tolerance <==>
            (1.0 - tolerance) * threshold < average < (1.0 + tolerance) * threshold
  {
    ScaleOrder(1.0 - tolerance, ratio, threshold);
    ScaleOrder(ratio, 1.0 + tolerance, threshold);
  }

  lemma TruncClose(x: real)
    ensures x - 1.0 < TruncReal(x) as real < x + 1.0
    ensures x >= 0.0 ==> TruncReal(x) as real <= x
  {
  }

  /** What a successful query stores is read back by a later failed one as the average, less than 1/1000 off. */
  lemma {:induction false} StoredAverageReadsBack(s: Scaler, settings: Settings, current: int, value: real,
                                                  targets: Targets)
    requires settings.threshold > 0.0 && current != 0
    ensures var found := Lookup(Calculate(s, settings, current, Answered(value), targets).targets, settings.targetName);
            && found.Some? && found.value.metric.averageValueMilli.Some?
            && var milli, average := found.value.metric.averageValueMilli.value, value / current as real;
               average - 0.001 < milli as real / 1000.0 < average + 0.001
  {
    var average := if value == 0.0 then 0.0 else value / current as real;
    var desired := if value == 0.0 then 0 else FromAverage(average, settings.threshold, s.tolerance, current);
    LookupAfterSet(targets, Stored(s, settings, desired, average), settings.targetName);
    TruncClose(average * 1000.0);
  }

  /** The desired replicas of a successful query. */
  function Desired(s: Scaler, settings: Settings, current: int, value: real): int
    requires settings.threshold > 0.0
  {
    match Calculate(s, settings, current, Answered(value), []).result
    case Ok(output) => output.desiredReplicas
    case Err(_) => 0
  }

  /**
   Minimality: with replicas running, a non-zero value is answered by the current replicas inside the
   band, and outside it by the least replicas that carry the value, whatever the current count.
   */
  lemma DesiredIsLeast(s: Scaler, settings: Settings, current: int, value: real)
    requires settings.threshold > 0.0 && current != 0 && value != 0.0
    ensures var n := Desired(s, settings, current, value);
            if InBand(value / current as real, settings.threshold, s.tolerance) then n == current
            else IsLeastCover(n, value, settings.threshold)
  {
    assert value / current as real * current as real == value;
    ScaledIsLeast(value / current as real, settings.threshold, current, value);
  }

  lemma LeastCoverPositive(n: int, value: real, threshold: real)
    requires threshold > 0.0 && value > 0.0 && IsLeastCover(n, value, threshold)
    ensures n > 0
  {
    CarriedOrder(0, n, threshold);
  }

  /** One-step convergence: the output, fed back under the same value, is returned unchanged. */
  lemma DesiredConverges(s: Scaler, settings: Settings, current: int, value: real)
    requires settings.threshold > 0.0 && value >= 0.0
    ensures var n := Desired(s, settings, current, value); Desired(s, settings, n, value) == n
  {
    var n := Desired(s, settings, current, value);
    if current != 0 && value != 0.0 {
      DesiredIsLeast(s, settings, current, value);
      if n != current {
        LeastCoverPositive(n, value, settings.threshold);
        DesiredIsLeast(s, settings, n, value);
        if !InBand(value / n as real, settings.threshold, s.tolerance) {
          LeastCoverUnique(n, Desired(s, settings, n, value), value, settings.threshold);
        }
      }
    }
  }
}
