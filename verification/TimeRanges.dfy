/** Cron windows and date windows. */
module TimeRanges {
  import opened Common

  /** A parsed cron expression, seen through the two queries the scheduler makes of it. */
  datatype Cron = Cron(next: Time -> Time, prev: Time -> Time)

  datatype Scheduler =
    | DateScheduler(startTime: Time, endTime: Time)
    | CronScheduler(start: Cron, end: Cron)
  {
    predicate Contains(when: Time) {
      match this
      case DateScheduler(startTime, endTime) => startTime <= when <= endTime
      case CronScheduler(start, end) =>
        when > start.prev(when) && when < end.next(when) && start.next(when) > end.next(when)
    }
  }

  // ---------------------------------------------------------------- cron, in general

  /** n is the first of the instants strictly after t. */
  ghost predicate IsNext(instants: iset<Time>, t: Time, n: Time) {
    n in instants && n > t && forall x :: x in instants && x > t ==> n <= x
  }

  /** p is the last of the instants strictly before t. */
  ghost predicate IsPrev(instants: iset<Time>, t: Time, p: Time) {
    p in instants && p < t && forall x :: x in instants && x < t ==> x <= p
  }

  /** The expression fires at exactly these instants. */
  ghost predicate Fires(c: Cron, instants: iset<Time>) {
    && (forall t :: IsNext(instants, t, c.next(t)))
    && (forall t :: IsPrev(instants, t, c.prev(t)))
  }

  /** t lies in [s, e) for some start s and the first end e after it. */
  ghost predicate InSomeWindow(starts: iset<Time>, ends: iset<Time>, t: Time) {
    exists s, e :: s in starts && IsNext(ends, s, e) && s <= t < e
  }

  ghost predicate EndStrictlyBetween(ends: iset<Time>, s1: Time, s2: Time) {
    exists e :: e in ends && s1 < e < s2
  }

  ghost predicate StartBetween(starts: iset<Time>, e1: Time, e2: Time) {
    exists s :: s in starts && e1 <= s <= e2
  }

  /** An end strictly between any two starts, and a start between (or at one of) any two ends. */
  ghost predicate Interleaved(starts: iset<Time>, ends: iset<Time>) {
    && (forall s1, s2 {:trigger EndStrictlyBetween(ends, s1, s2)} ::
          s1 in starts && s2 in starts && s1 < s2 ==> EndStrictlyBetween(ends, s1, s2))
    && (forall e1, e2 {:trigger StartBetween(starts, e1, e2)} ::
          e1 in ends && e2 in ends && e1 < e2 ==> StartBetween(starts, e1, e2))
  }

  /** The scheduler is right about every instant. */
  ghost predicate MeansItsWindows(start: Cron, end: Cron, starts: iset<Time>, ends: iset<Time>) {
    forall t :: CronScheduler(start, end).Contains(t) <==> InSomeWindow(starts, ends, t)
  }

  /** The last end at or before t. */
  lemma LastAtOrBefore(c: Cron, instants: iset<Time>, t: Time) returns (p: Time)
    requires Fires(c, instants)
    ensures p in instants && p <= t && forall x :: x in instants && x <= t ==> x <= p
  {
    p := c.prev(t + 1);
    assert IsPrev(instants, t + 1, p);
  }

  lemma ContainsMeansNextIsEnd(start: Cron, end: Cron, starts: iset<Time>, ends: iset<Time>, t: Time)
    requires Fires(start, starts) && Fires(end, ends)
    ensures CronScheduler(start, end).Contains(t) <==> start.next(t) > end.next(t)
    ensures IsNext(starts, t, start.next(t)) && IsNext(ends, t, end.next(t))
  {
    assert IsPrev(starts, t, start.prev(t)) && IsNext(ends, t, end.next(t));
  }

  lemma WindowAround(starts: iset<Time>, ends: iset<Time>, t: Time, n: Time, e0: Time, e1: Time, s: Time)
    requires IsNext(starts, t, n) && IsNext(ends, t, e1) && e1 < n
    requires e0 <= t && forall x :: x in ends && x <= t ==> x <= e0
    requires s in starts && e0 <= s <= e1
    ensures IsNext(ends, s, e1) && s <= t < e1
  {
  }

  lemma ContainsImpliesWindow(start: Cron, end: Cron, starts: iset<Time>, ends: iset<Time>, t: Time)
    requires Fires(start, starts) && Fires(end, ends) && Interleaved(starts, ends)
    requires CronScheduler(start, end).Contains(t)
    ensures InSomeWindow(starts, ends, t)
  {
    ContainsMeansNextIsEnd(start, end, starts, ends, t);
    var e0 := LastAtOrBefore(end, ends, t);
    var e1 := end.next(t);
    assert StartBetween(starts, e0, e1);
    var s :| s in starts && e0 <= s <= e1;
    WindowAround(starts, ends, t, start.next(t), e0, e1, s);
  }

  lemma WindowImpliesContains(start: Cron, end: Cron, starts: iset<Time>, ends: iset<Time>, t: Time)
    requires Fires(start, starts) && Fires(end, ends) && Interleaved(starts, ends)
    requires InSomeWindow(starts, ends, t)
    ensures CronScheduler(start, end).Contains(t)
  {
    ContainsMeansNextIsEnd(start, end, starts, ends, t);
    var s, e :| s in starts && IsNext(ends, s, e) && s <= t < e;
    assert EndStrictlyBetween(ends, s, start.next(t));
    var between :| between in ends && s < between < start.next(t);
    assert end.next(t) <= e <= between;
  }

  /** Two starts with no end between them: the first start is in a window the scheduler denies. */
  lemma MissedStart(start: Cron, end: Cron, starts: iset<Time>, ends: iset<Time>, s1: Time, s2: Time)
    requires Fires(start, starts) && Fires(end, ends)
    requires s1 in starts && s2 in starts && s1 < s2 && !EndStrictlyBetween(ends, s1, s2)
    ensures InSomeWindow(starts, ends, s1) && !CronScheduler(start, end).Contains(s1)
  {
    ContainsMeansNextIsEnd(start, end, starts, ends, s1);
    assert IsNext(ends, s1, end.next(s1));
  }

  /** Two ends with no start between them: the first end is outside every window, yet the scheduler claims it. */
  lemma FalseEnd(start: Cron, end: Cron, starts: iset<Time>, ends: iset<Time>, e1: Time, e2: Time)
    requires Fires(start, starts) && Fires(end, ends)
    requires e1 in ends && e2 in ends && e1 < e2 && !StartBetween(starts, e1, e2)
    ensures CronScheduler(start, end).Contains(e1) && !InSomeWindow(starts, ends, e1)
  {
    ContainsMeansNextIsEnd(start, end, starts, ends, e1);
    forall s, e | s in starts && IsNext(ends, s, e) ensures !(s <= e1 < e) {
      assert s < e1 ==> e <= e1;
    }
  }

  lemma InterleavingSuffices(start: Cron, end: Cron, starts: iset<Time>, ends: iset<Time>)
    requires Fires(start, starts) && Fires(end, ends) && Interleaved(starts, ends)
    ensures MeansItsWindows(start, end, starts, ends)
  {
    forall t ensures CronScheduler(start, end).Contains(t) <==> InSomeWindow(starts, ends, t) {
      if CronScheduler(start, end).Contains(t) {
        ContainsImpliesWindow(start, end, starts, ends, t);
      } else if InSomeWindow(starts, ends, t) {
        WindowImpliesContains(start, end, starts, ends, t);
      }
    }
  }

  lemma InterleavingNeeded(start: Cron, end: Cron, starts: iset<Time>, ends: iset<Time>)
    requires Fires(start, starts) && Fires(end, ends) && MeansItsWindows(start, end, starts, ends)
    ensures Interleaved(starts, ends)
  {
    forall s1, s2 | s1 in starts && s2 in starts && s1 < s2 ensures EndStrictlyBetween(ends, s1, s2) {
      if !EndStrictlyBetween(ends, s1, s2) {
        MissedStart(start, end, starts, ends, s1, s2);
      }
    }
    forall e1, e2 | e1 in ends && e2 in ends && e1 < e2 ensures StartBetween(starts, e1, e2) {
      if !StartBetween(starts, e1, e2) {
        FalseEnd(start, end, starts, ends, e1, e2);
      }
    }
  }

  /**
   The scheduler means "inside some [start, next end)" at every instant exactly when starts and
   ends interleave.
   */
  lemma CronMeansWindowsIff(start: Cron, end: Cron, starts: iset<Time>, ends: iset<Time>)
    requires Fires(start, starts) && Fires(end, ends)
    ensures MeansItsWindows(start, end, starts, ends) <==> Interleaved(starts, ends)
  {
    if Interleaved(starts, ends) {
      InterleavingSuffices(start, end, starts, ends);
    }
    if MeansItsWindows(start, end, starts, ends) {
      InterleavingNeeded(start, end, starts, ends);
    }
  }

  // ---------------------------------------------------------------- cron, once per period

  function Phase(t: Time, offset: Time, period: int): int
    requires period > 0
  {
    (t - offset) % period
  }

  /** An expression that fires once per period, such as every day at a fixed hour and minute. */
  function Periodic(offset: Time, period: int): Cron
    requires period > 0
  {
    Cron(t => t - Phase(t, offset, period) + period,
         t => t - if Phase(t, offset, period) == 0 then period else Phase(t, offset, period))
  }

  lemma PhaseShift(t: Time, a: Time, b: Time, period: int)
    requires period > 0
    ensures var x, y := Phase(t, a, period), Phase(b, a, period);
            Phase(t, b, period) == if x >= y then x - y else x - y + period
  {
    var x, y := Phase(t, a, period), Phase(b, a, period);
    var q := (t - a) / period - (b - a) / period;
    assert q * period == ((t - a) - x) - ((b - a) - y);
    if x >= y {
      DivUnique(t - b, period, q, x - y);
    } else {
      assert (q - 1) * period == q * period - period;
      DivUnique(t - b, period, q - 1, x - y + period);
    }
  }

  /** The closed form of Next and Prev is the one of the instants offset + k * period. */
  lemma PeriodicFires(offset: Time, period: int)
    requires period > 0
    ensures Fires(Periodic(offset, period), iset t: Time | Phase(t, offset, period) == 0)
  {
    var instants := iset t: Time | Phase(t, offset, period) == 0;
    forall t ensures IsNext(instants, t, Periodic(offset, period).next(t))
             ensures IsPrev(instants, t, Periodic(offset, period).prev(t))
    {
      NearestAfter(t, offset, period);
      NearestBefore(t, offset, period);
    }
  }

  lemma NearestAfter(t: Time, offset: Time, period: int)
    requires period > 0
    ensures var n := Periodic(offset, period).next(t);
            && Phase(n, offset, period) == 0
            && forall x: Time :: Phase(x, offset, period) == 0 && x > t ==> n <= x
  {
    var q, n := (t - offset) / period, Periodic(offset, period).next(t);
    DivUnique(n - offset, period, q + 1, 0);
    forall x: Time | Phase(x, offset, period) == 0 && x > t ensures n <= x {
      MultiplesApart(n - offset, q + 1, x - offset, period);
    }
  }

  lemma NearestBefore(t: Time, offset: Time, period: int)
    requires period > 0
    ensures var p := Periodic(offset, period).prev(t);
            && Phase(p, offset, period) == 0
            && forall x: Time :: Phase(x, offset, period) == 0 && x < t ==> x <= p
  {
    var q := if Phase(t, offset, period) == 0 then (t - offset) / period - 1 else (t - offset) / period;
    var p := Periodic(offset, period).prev(t);
    DivUnique(p - offset, period, q, 0);
    forall x: Time | Phase(x, offset, period) == 0 && x < t ensures x <= p {
      MultiplesApart(x - offset, (x - offset) / period, p - offset, period);
    }
  }

  /** A multiple less than one period beyond another one is not beyond it. */
  lemma MultiplesApart(m: int, k: int, n: int, period: int)
    requires period > 0 && m == k * period && n % period == 0 && m < n + period
    ensures m <= n
  {
    assert (k - n / period) * period == m - n;
    MultipleBelow(k - n / period, period, m - n);
  }

  /**
   A daily window is "phase past the start is below the phase of the end", also when the end comes
   earlier in the day than the start; equal phases make it empty.
   */
  lemma PeriodicWindow(a: Time, b: Time, period: int, t: Time)
    requires period > 0
    ensures CronScheduler(Periodic(a, period), Periodic(b, period)).Contains(t)
            <==> Phase(t, a, period) < Phase(b, a, period)
  {
    PhaseShift(t, a, b, period);
  }

  /** Swapping start and end complements the window at every instant exactly when the phases differ. */
  lemma SwapComplements(a: Time, b: Time, period: int)
    requires period > 0
    ensures Phase(b, a, period) != 0 <==>
            forall t :: CronScheduler(Periodic(b, period), Periodic(a, period)).Contains(t)
                        <==> !CronScheduler(Periodic(a, period), Periodic(b, period)).Contains(t)
  {
    forall t ensures CronScheduler(Periodic(b, period), Periodic(a, period)).Contains(t)
                     <==> Phase(b, a, period) != 0
                          && !CronScheduler(Periodic(a, period), Periodic(b, period)).Contains(t)
    {
      PhaseShift(t, a, b, period);
    }
    if Phase(b, a, period) == 0 {
      PhaseShift(0, a, b, period);
      assert !CronScheduler(Periodic(b, period), Periodic(a, period)).Contains(0);
    }
  }
}
