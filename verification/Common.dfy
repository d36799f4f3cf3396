/** Shared vocabulary: optional values, results, and time as whole nanoseconds. */
module Common {

  datatype Option<+T> = None | Some(value: T) {
    function GetOr(default: T): T {
      match this
      case None => default
      case Some(v) => v
    }
  }

  datatype Result<+T, +E> = Ok(value: T) | Err(error: E)

  /** Instants are nanoseconds since an epoch; durations are nanoseconds. */
  type Time = int

  const SECOND: int := 1_000_000_000

  /** What survives of an instant once it is stored in an API object: whole seconds only. */
  function WholeSeconds(t: Time): (r: Time)
    ensures r <= t < r + SECOND && r % SECOND == 0
  {
    t - t % SECOND
  }

  function Max(a: int, b: int): int {
    if a < b then b else a
  }

  /** Integer division that truncates toward zero, as Go's `/` does. */
  function TruncDiv(a: int, b: int): int
    requires b != 0
  {
    if a >= 0 then a / b else -((-a) / b)
  }

  /** The least integer that is not below x. */
  function Ceil(x: real): (n: int)
    ensures n as real - 1.0 < x <= n as real
  {
    -((-x).Floor)
  }

  /** Integers pairwise at least d apart inside [lo, hi] number at most (hi - lo) / d + 1. */
  lemma SpacedCount(ts: seq<int>, lo: int, hi: int, d: int)
    requires d > 0 && lo <= hi
    requires forall i :: 0 <= i < |ts| ==> lo <= ts[i] <= hi
    requires PairwiseApart(ts, d)
    ensures |ts| <= (hi - lo) / d + 1
  {
    if ts != [] {
      SpacedSpan(ts, lo, hi, d);
      DivUnique((|ts| - 1) * d, d, |ts| - 1, 0);
    }
    DivMonotone(if ts == [] then 0 else (|ts| - 1) * d, hi - lo, d);
  }

  lemma {:induction false} SpacedSpan(ts: seq<int>, lo: int, hi: int, d: int)
    requires d > 0 && ts != []
    requires forall i :: 0 <= i < |ts| ==> lo <= ts[i] <= hi
    requires PairwiseApart(ts, d)
    ensures (|ts| - 1) * d <= hi - lo
    decreases |ts|
  {
    if |ts| > 1 {
      var k := IndexOfMax(ts);
      var rest := ts[..k] + ts[k + 1..];
      WithoutMax(ts, k, d);
      SpacedSpan(rest, lo, ts[k] - d, d);
      assert (|ts| - 1) * d == (|rest| - 1) * d + d;
    } else {
      assert lo <= ts[0] <= hi;
    }
  }

  lemma WithoutMax(ts: seq<int>, k: nat, d: int)
    requires d > 0 && PairwiseApart(ts, d)
    requires k < |ts| && forall i :: 0 <= i < |ts| ==> ts[i] <= ts[k]
    ensures var rest := ts[..k] + ts[k + 1..];
            && PairwiseApart(rest, d)
            && forall i :: 0 <= i < |rest| ==> rest[i] <= ts[k] - d && rest[i] in ts
  {
    var rest := ts[..k] + ts[k + 1..];
    forall i | 0 <= i < |rest| ensures rest[i] <= ts[k] - d && rest[i] in ts {
      var j := if i < k then i else i + 1;
      assert rest[i] == ts[j] && Apart(ts[j], ts[k], d);
    }
    forall i, j | 0 <= i < j < |rest| ensures Apart(rest[i], rest[j], d) {
      assert rest[i] == ts[if i < k then i else i + 1];
      assert rest[j] == ts[if j < k then j else j + 1];
    }
  }

  predicate Apart(a: int, b: int, d: int) {
    a + d <= b || b + d <= a
  }

  ghost predicate PairwiseApart(ts: seq<int>, d: int) {
    forall i, j :: 0 <= i < j < |ts| ==> Apart(ts[i], ts[j], d)
  }

  lemma IndexOfMax(ts: seq<int>) returns (k: nat)
    requires |ts| > 0
    ensures k < |ts| && forall i :: 0 <= i < |ts| ==> ts[i] <= ts[k]
  {
    k := 0;
    for n := 1 to |ts|
      invariant k < |ts| && forall i :: 0 <= i < n ==> ts[i] <= ts[k]
    {
      if ts[n] > ts[k] { k := n; }
    }
  }

  lemma DivStep(a: int, b: int, d: int)
    requires d > 0 && a <= b
    ensures (a - d) / d + 1 == a / d <= b / d
  {
    DivUnique(a - d, d, a / d - 1, a % d);
    DivMonotone(a, b, d);
  }

  lemma DivMonotone(a: int, b: int, d: int)
    requires d > 0 && a <= b
    ensures a / d <= b / d
  {
    // Otherwise a would be at least d beyond the multiple of d below b.
    MultipleBelow(a / d - b / d, d, b % d - a % d - (b - a));
  }

  /** A quotient and a remainder in range are the quotient and the remainder. */
  lemma DivUnique(a: int, d: int, q: int, r: int)
    requires d > 0 && 0 <= r < d && a == q * d + r
    ensures a / d == q && a % d == r
  {
    var k := a / d - q;
    assert k * d == (a / d) * d - q * d;
    MultipleBelow(k, d, r - a % d);
    assert (-k) * d == -(k * d);
    MultipleBelow(-k, d, a % d - r);
  }

  /** A multiple of d below d is a non-positive multiple. */
  lemma MultipleBelow(k: int, d: int, x: int)
    requires d > 0 && k * d == x && x < d
    ensures k <= 0
  {
    if k > 0 {
      MulAtLeast(k, d);
      assert false;
    }
  }

  lemma MulAtLeast(k: int, d: int)
    requires k > 0 && d >= 0
    ensures k * d >= d
  {
  }

  // ---------------------------------------------------------------- reals

  function Abs(x: real): real {
    if x < 0.0 then -x else x
  }

  lemma RealProduct(x: real, y: real)
    requires x > 0.0 && y > 0.0
    ensures x * y > 0.0
  {
  }

  /** Scaling by a positive factor keeps the order. */
  lemma ScaleOrder(a: real, b: real, t: real)
    requires t > 0.0
    ensures a < b <==> a * t < b * t
  {
    if a < b { RealProduct(b - a, t); }
    if b < a { RealProduct(a - b, t); }
  }

  lemma RatioTimes(ratio: real, a: real, t: real, k: real)
    requires ratio * t == a
    ensures (ratio * k) * t == a * k
  {
    assert (ratio * k) * t == (ratio * t) * k;
  }
}
