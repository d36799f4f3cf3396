/** Replica patches: which one is in force, and the purge of expired ones. */
module ReplicaPatches {
  import opened Common
  import opened TimeRanges

  datatype ReplicaPatch = ReplicaPatch(
    timezone: string, start: string, end: string, retentionSeconds: Option<int>,
    minReplicas: int, maxReplicas: int)

  datatype PatchError =
    | TimezoneNotFound
    | UnknownTimezone
    | SchedulePeriodNotFound
    | StartEndEqual
    | InvalidPeriodFormat
    | StartNotBeforeEnd
    | InvalidCronSpec

  /** The parsers of the libraries: time zones, dates in a zone, cron expressions in a zone. */
  datatype Parsers = Parsers(
    zone: string -> Option<int>,
    date: (int, string) -> Option<Time>,
    cron: (int, string) -> Option<Cron>)

  /** A date is never a cron expression: its first field holds the `-` that cron minutes may not. */
  ghost predicate DatesAreNotCron(ps: Parsers) {
    forall z, s :: ps.date(z, s).Some? ==> ps.cron(z, s).None?
  }

  function Fields(spec: string): nat {
    if spec == "" then 1
    else Fields(spec[..|spec| - 1]) + if spec[|spec| - 1] == ' ' then 1 else 0
  }

  function NewDateScheduler(ps: Parsers, zone: int, start: string, end: string): (r: Result<Scheduler, PatchError>)
    ensures r.Ok? ==> r.value.DateScheduler? && r.value.startTime < r.value.endTime
  {
    match (ps.date(zone, start), ps.date(zone, end))
    case (Some(s), Some(e)) => if s < e then Ok(DateScheduler(s, e)) else Err(StartNotBeforeEnd)
    case _ => Err(InvalidPeriodFormat)
  }

  function NewCronScheduler(ps: Parsers, zone: int, start: string, end: string): Result<Scheduler, PatchError> {
    match (ps.cron(zone, start), ps.cron(zone, end))
    case (Some(s), Some(e)) => Ok(CronScheduler(s, e))
    case _ => Err(InvalidCronSpec)
  }

  function SchedulerOf(ps: Parsers, p: ReplicaPatch): Result<Scheduler, PatchError> {
    if p.timezone == "" then Err(TimezoneNotFound)
    else
      match ps.zone(p.timezone)
      case None => Err(UnknownTimezone)
      case Some(zone) =>
        if p.start == "" || p.end == "" then Err(SchedulePeriodNotFound)
        else if p.start == p.end then Err(StartEndEqual)
        else if Fields(p.start) == 2 then NewDateScheduler(ps, zone, p.start, p.end)
        else if Fields(p.start) == 5 then NewCronScheduler(ps, zone, p.start, p.end)
        else Err(InvalidPeriodFormat)
  }

  /** Joining two specs with a space adds up their fields. */
  lemma {:induction false} FieldsJoin(a: string, b: string)
    ensures Fields(a + " " + b) == Fields(a) + Fields(b)
  {
    var s := a + " " + b;
    if b == "" {
      assert s[..|s| - 1] == a;
    } else {
      assert s[..|s| - 1] == a + " " + b[..|b| - 1];
      FieldsJoin(a, b[..|b| - 1]);
    }
  }

  lemma {:induction false} OneField(spec: string)
    requires ' ' !in spec
    ensures Fields(spec) == 1
  {
    if spec != "" {
      OneField(spec[..|spec| - 1]);
    }
  }

  /** The checks before the two kinds of scheduler are told apart. */
  predicate Usable(ps: Parsers, p: ReplicaPatch) {
    p.timezone != "" && ps.zone(p.timezone).Some? && p.start != "" && p.end != "" && p.start != p.end
  }

  /** A usable patch whose start is a date and a time, joined by one space, is always read as a date window. */
  lemma {:induction false} DateStartIsDateWindow(ps: Parsers, p: ReplicaPatch, date: string, time: string)
    requires Usable(ps, p) && p.start == date + " " + time && ' ' !in date && ' ' !in time
    ensures SchedulerOf(ps, p) == NewDateScheduler(ps, ps.zone(p.timezone).value, p.start, p.end)
  {
    OneField(date);
    OneField(time);
    FieldsJoin(date, time);
  }

  /** And one whose start has the five fields of cron is always read as a cron window. */
  lemma {:induction false} CronStartIsCronWindow(ps: Parsers, p: ReplicaPatch, f: seq<string>)
    requires Usable(ps, p) && |f| == 5 && forall i :: 0 <= i < 5 ==> ' ' !in f[i]
    requires p.start == f[0] + " " + (f[1] + " " + (f[2] + " " + (f[3] + " " + f[4])))
    ensures SchedulerOf(ps, p) == NewCronScheduler(ps, ps.zone(p.timezone).value, p.start, p.end)
  {
    forall i | 0 <= i < 5 ensures Fields(f[i]) == 1 {
      OneField(f[i]);
    }
    FieldsJoin(f[3], f[4]);
    FieldsJoin(f[2], f[3] + " " + f[4]);
    FieldsJoin(f[1], f[2] + " " + (f[3] + " " + f[4]));
    FieldsJoin(f[0], f[1] + " " + (f[2] + " " + (f[3] + " " + f[4])));
  }

  // ---------------------------------------------------------------- what a lookup means

  /** The period of a usable patch is two dates in order, or two cron expressions. */
  predicate WellFormed(ps: Parsers, p: ReplicaPatch) {
    && Usable(ps, p)
    && var zone := ps.zone(p.timezone).value;
       || (Fields(p.start) == 2 && ps.date(zone, p.start).Some? && ps.date(zone, p.end).Some?
           && ps.date(zone, p.start).value < ps.date(zone, p.end).value)
       || (Fields(p.start) == 5 && ps.cron(zone, p.start).Some? && ps.cron(zone, p.end).Some?)
  }

  /** Its window holds the instant: from date to date, or where the end fires next, before the start does. */
  predicate Holds(ps: Parsers, p: ReplicaPatch, when: Time)
    requires WellFormed(ps, p)
  {
    var zone := ps.zone(p.timezone).value;
    if Fields(p.start) == 2 then ps.date(zone, p.start).value <= when <= ps.date(zone, p.end).value
    else
      var start, end := ps.cron(zone, p.start).value, ps.cron(zone, p.end).value;
      start.prev(when) < when < end.next(when) < start.next(when)
  }

  /** What is wrong with a patch: the first of these that applies. */
  predicate HasFault(ps: Parsers, p: ReplicaPatch, e: PatchError) {
    var zone := ps.zone(p.timezone);
    match e
    case TimezoneNotFound => p.timezone == ""
    case UnknownTimezone => p.timezone != "" && zone.None?
    case SchedulePeriodNotFound => p.timezone != "" && zone.Some? && (p.start == "" || p.end == "")
    case StartEndEqual => p.timezone != "" && zone.Some? && p.start == p.end != ""
    case InvalidPeriodFormat =>
      Usable(ps, p) && Fields(p.start) != 5
      && (Fields(p.start) == 2 ==> ps.date(zone.value, p.start).None? || ps.date(zone.value, p.end).None?)
    case StartNotBeforeEnd =>
      Usable(ps, p) && Fields(p.start) == 2 && ps.date(zone.value, p.start).Some? && ps.date(zone.value, p.end).Some?
      && ps.date(zone.value, p.end).value <= ps.date(zone.value, p.start).value
    case InvalidCronSpec =>
      Usable(ps, p) && Fields(p.start) == 5 && (ps.cron(zone.value, p.start).None? || ps.cron(zone.value, p.end).None?)
  }

  predicate PassedOver(ps: Parsers, p: ReplicaPatch, when: Time) {
    WellFormed(ps, p) && !Holds(ps, p, when)
  }

  /** The first i patches are well formed, and none of their windows holds the instant. */
  ghost predicate PassesOver(ps: Parsers, patches: seq<ReplicaPatch>, when: Time, i: nat)
    requires i <= |patches|
  {
    forall k :: 0 <= k < i ==> PassedOver(ps, patches[k], when)
  }

  /** A lookup finds the first patch whose window holds the instant, unless one before it is at fault. */
  ghost predicate FindsPatch(ps: Parsers, patches: seq<ReplicaPatch>, when: Time,
                             r: Result<Option<ReplicaPatch>, PatchError>) {
    match r
    case Ok(None) => PassesOver(ps, patches, when, |patches|)
    case Ok(Some(p)) =>
      exists i :: 0 <= i < |patches| && patches[i] == p && PassesOver(ps, patches, when, i)
                  && WellFormed(ps, p) && Holds(ps, p, when)
    case Err(e) =>
      exists i :: 0 <= i < |patches| && HasFault(ps, patches[i], e) && PassesOver(ps, patches, when, i)
  }

  lemma SchedulerMeans(ps: Parsers, p: ReplicaPatch, when: Time)
    ensures SchedulerOf(ps, p).Ok? <==> WellFormed(ps, p)
    ensures SchedulerOf(ps, p).Ok? ==> (SchedulerOf(ps, p).value.Contains(when) <==> Holds(ps, p, when))
    ensures SchedulerOf(ps, p).Err? ==> HasFault(ps, p, SchedulerOf(ps, p).error)
  {
  }

  lemma {:induction false} SelectMeans(ps: Parsers, patches: seq<ReplicaPatch>, when: Time)
    ensures FindsPatch(ps, patches, when, Select(ps, patches, when))
  {
    if patches != [] {
      var rest := patches[1..];
      SchedulerMeans(ps, patches[0], when);
      if PassedOver(ps, patches[0], when) {
        SelectMeans(ps, rest, when);
        OneMorePassed(ps, patches, when);
        var r := Select(ps, rest, when);
        if r.Ok? && r.value.Some? {
          var i :| 0 <= i < |rest| && rest[i] == r.value.value && PassesOver(ps, rest, when, i);
          assert patches[i + 1] == rest[i];
        } else if r.Err? {
          var i :| 0 <= i < |rest| && HasFault(ps, rest[i], r.error) && PassesOver(ps, rest, when, i);
          assert patches[i + 1] == rest[i];
        }
      } else {
        assert PassesOver(ps, patches, when, 0);
      }
    }
  }

  lemma OneMorePassed(ps: Parsers, patches: seq<ReplicaPatch>, when: Time)
    requires patches != [] && PassedOver(ps, patches[0], when)
    ensures forall i :: 0 <= i < |patches| && PassesOver(ps, patches[1..], when, i) ==>
              PassesOver(ps, patches, when, i + 1)
  {
  }

  /** The three kinds of answer exclude each other, and so do the faults: this is the lookup. */
  lemma {:induction false} LookupIff(ps: Parsers, patches: seq<ReplicaPatch>, when: Time,
                                     r: Result<Option<ReplicaPatch>, PatchError>)
    ensures r == Select(ps, patches, when) <==> FindsPatch(ps, patches, when, r)
  {
    var s := Select(ps, patches, when);
    SelectMeans(ps, patches, when);
    if FindsPatch(ps, patches, when, r) {
      var i := StopsAt(ps, patches, when, r);
      var j := StopsAt(ps, patches, when, s);
      OneFault(ps, patches, i, r, s);
    }
  }

  /** Two answers that stop at the same patch are the same. */
  lemma OneFault(ps: Parsers, patches: seq<ReplicaPatch>, i: nat, r: Result<Option<ReplicaPatch>, PatchError>,
                 s: Result<Option<ReplicaPatch>, PatchError>)
    requires StopsWith(ps, patches, i, r) && StopsWith(ps, patches, i, s)
    ensures r == s
  {
  }

  /** What the patch at which a lookup stopped has to do with the answer. */
  predicate StopsWith(ps: Parsers, patches: seq<ReplicaPatch>, i: nat, r: Result<Option<ReplicaPatch>, PatchError>) {
    match r
    case Ok(None) => i == |patches|
    case Ok(Some(p)) => i < |patches| && patches[i] == p && WellFormed(ps, p)
    case Err(e) => i < |patches| && HasFault(ps, patches[i], e)
  }

  lemma StopsAt(ps: Parsers, patches: seq<ReplicaPatch>, when: Time, r: Result<Option<ReplicaPatch>, PatchError>)
    returns (i: nat)
    requires FindsPatch(ps, patches, when, r)
    ensures i <= |patches| && PassesOver(ps, patches, when, i) && StopsWith(ps, patches, i, r)
    ensures i < |patches| ==> !PassedOver(ps, patches[i], when)
  {
    if r == Ok(None) {
      i := |patches|;
    } else if r.Ok? {
      i :| 0 <= i < |patches| && patches[i] == r.value.value && PassesOver(ps, patches, when, i)
           && WellFormed(ps, r.value.value) && Holds(ps, r.value.value, when);
    } else {
      i :| 0 <= i < |patches| && HasFault(ps, patches[i], r.error) && PassesOver(ps, patches, when, i);
    }
  }

  /** A cron patch whose starts and ends interleave holds exactly the instants of its windows. */
  lemma CronPatchHolds(ps: Parsers, p: ReplicaPatch, starts: iset<Time>, ends: iset<Time>, when: Time)
    requires WellFormed(ps, p) && Fields(p.start) == 5
    requires var zone := ps.zone(p.timezone).value;
             Fires(ps.cron(zone, p.start).value, starts) && Fires(ps.cron(zone, p.end).value, ends)
    requires Interleaved(starts, ends)
    ensures Holds(ps, p, when) <==> InSomeWindow(starts, ends, when)
  {
    var zone := ps.zone(p.timezone).value;
    CronMeansWindowsIff(ps.cron(zone, p.start).value, ps.cron(zone, p.end).value, starts, ends);
    assert CronScheduler(ps.cron(zone, p.start).value, ps.cron(zone, p.end).value).Contains(when)
           <==> InSomeWindow(starts, ends, when);
  }

  // ---------------------------------------------------------------- the lookup

  /** The first patch whose window holds `when`; an unusable patch before it is an error. */
  function Select(ps: Parsers, patches: seq<ReplicaPatch>, when: Time): Result<Option<ReplicaPatch>, PatchError> {
    if patches == [] then Ok(None)
    else
      match SchedulerOf(ps, patches[0])
      case Err(e) => Err(e)
      case Ok(scheduler) =>
        if scheduler.Contains(when) then Ok(Some(patches[0])) else Select(ps, patches[1..], when)
  }

  method GetReplicaPatch(ps: Parsers, when: Time, patches: seq<ReplicaPatch>)
    returns (r: Result<Option<ReplicaPatch>, PatchError>)
    ensures r == Select(ps, patches, when)
  {
    var i := 0;
    while i < |patches|
      invariant 0 <= i <= |patches|
      invariant Select(ps, patches, when) == Select(ps, patches[i..], when)
    {
      var patch := patches[i];
      if patch.timezone == "" {
        return Err(TimezoneNotFound);
      }
      var timezone := ps.zone(patch.timezone);
      if timezone.None? {
        return Err(UnknownTimezone);
      }
      var start, end := patch.start, patch.end;
      if start == "" || end == "" {
        return Err(SchedulePeriodNotFound);
      }
      if start == end {
        return Err(StartEndEqual);
      }
      var scheduler;
      if Fields(start) == 2 {
        scheduler := NewDateScheduler(ps, timezone.value, start, end);
      } else if Fields(start) == 5 {
        scheduler := NewCronScheduler(ps, timezone.value, start, end);
      } else {
        return Err(InvalidPeriodFormat);
      }
      if scheduler.Err? {
        return Err(scheduler.error);
      }
      if scheduler.value.Contains(when) {
        return Ok(Some(patch));
      }
      i := i + 1;
    }
    return Ok(None);
  }

  // ---------------------------------------------------------------- purge

  function Retention(p: ReplicaPatch): int {
    match p.retentionSeconds
    case None => 0
    case Some(s) => s * SECOND
  }

  /** Only patches that parse as date windows expire. */
  predicate Expired(ps: Parsers, p: ReplicaPatch, now: Time) {
    match ps.zone(p.timezone)
    case None => false
    case Some(zone) =>
      match NewDateScheduler(ps, zone, p.start, p.end)
      case Err(_) => false
      case Ok(scheduler) => now > scheduler.endTime + Retention(p)
  }

  /** The patch is two dates in order, the later one more than the retention ago. */
  predicate PastRetention(ps: Parsers, p: ReplicaPatch, now: Time) {
    && ps.zone(p.timezone).Some?
    && var zone := ps.zone(p.timezone).value;
       && ps.date(zone, p.start).Some? && ps.date(zone, p.end).Some?
       && ps.date(zone, p.start).value < ps.date(zone, p.end).value
       && now > ps.date(zone, p.end).value + p.retentionSeconds.GetOr(0) * 1_000_000_000
  }

  lemma ExpiredIff(ps: Parsers, p: ReplicaPatch, now: Time)
    ensures Expired(ps, p, now) <==> PastRetention(ps, p, now)
  {
  }

  function Unexpired(ps: Parsers, patches: seq<ReplicaPatch>, now: Time): seq<ReplicaPatch> {
    if patches == [] then []
    else if Expired(ps, patches[|patches| - 1], now) then Unexpired(ps, patches[..|patches| - 1], now)
    else Unexpired(ps, patches[..|patches| - 1], now) + [patches[|patches| - 1]]
  }

  /** The annotation of the autoscaler that carries its patches. */
  datatype Annotation = Absent | Malformed | Patches(list: seq<ReplicaPatch>)

  function PatchesOf(a: Annotation): Result<seq<ReplicaPatch>, ()> {
    match a
    case Absent => Ok([])
    case Malformed => Err(())
    case Patches(list) => Ok(list)
  }

  /** The annotation disappears when its last patch goes, and is left alone when nothing goes. */
  function Purged(ps: Parsers, a: Annotation, now: Time): Annotation {
    if !a.Patches? then a
    else
      var kept := Unexpired(ps, a.list, now);
      if |kept| == |a.list| then a
      else if kept == [] then Absent
      else Patches(kept)
  }

  method PurgeUnusedReplicaPatches(ps: Parsers, a: Annotation, now: Time) returns (r: Annotation)
    ensures r == Purged(ps, a, now)
  {
    if !a.Patches? {
      return a;
    }
    var kept: seq<ReplicaPatch> := [];
    for i := 0 to |a.list|
      invariant kept == Unexpired(ps, a.list[..i], now)
    {
      assert a.list[..i + 1][..i] == a.list[..i];
      var patch := a.list[i];
      var timezone := ps.zone(patch.timezone);
      if timezone.Some? {
        var scheduler := NewDateScheduler(ps, timezone.value, patch.start, patch.end);
        if scheduler.Ok? {
          var expiredTime := scheduler.value.endTime;
          if patch.retentionSeconds.Some? {
            expiredTime := expiredTime + patch.retentionSeconds.value * SECOND;
          }
          if now > expiredTime {
            continue;
          }
        }
      }
      kept := kept + [patch];
    }
    assert a.list[..|a.list|] == a.list;
    if |kept| == |a.list| {
      return a;
    }
    return if |kept| == 0 then Absent else Patches(kept);
  }

  lemma {:induction false} UnexpiredShrinks(ps: Parsers, patches: seq<ReplicaPatch>, now: Time)
    ensures |Unexpired(ps, patches, now)| <= |patches|
    ensures |Unexpired(ps, patches, now)| == |patches| ==> Unexpired(ps, patches, now) == patches
  {
    if patches != [] {
      UnexpiredShrinks(ps, patches[..|patches| - 1], now);
      assert patches == patches[..|patches| - 1] + [patches[|patches| - 1]];
    }
  }

  /** The list read back from a purged annotation is the list of unexpired patches, in order. */
  lemma {:induction false} PurgedList(ps: Parsers, a: Annotation, now: Time)
    ensures PatchesOf(Purged(ps, a, now)) ==
            match PatchesOf(a) { case Ok(list) => Ok(Unexpired(ps, list, now)) case Err(e) => Err(e) }
  {
    if a.Patches? {
      UnexpiredShrinks(ps, a.list, now);
    }
  }

  /** Nothing else is touched: no patch goes before its time, and the last one takes the annotation along. */
  lemma {:induction false} PurgedAnnotation(ps: Parsers, a: Annotation, now: Time)
    ensures !a.Patches? ==> Purged(ps, a, now) == a
    ensures a.Patches? && (forall i :: 0 <= i < |a.list| ==> !PastRetention(ps, a.list[i], now)) ==>
              Purged(ps, a, now) == a
    ensures a.Patches? && a.list != [] && (forall i :: 0 <= i < |a.list| ==> PastRetention(ps, a.list[i], now)) ==>
              Purged(ps, a, now) == Absent
  {
    if a.Patches? {
      if forall i :: 0 <= i < |a.list| ==> !PastRetention(ps, a.list[i], now) {
        AllKept(ps, a.list, now);
      } else if forall i :: 0 <= i < |a.list| ==> PastRetention(ps, a.list[i], now) {
        NoneKept(ps, a.list, now);
      }
    }
  }

  lemma {:induction false} AllKept(ps: Parsers, patches: seq<ReplicaPatch>, now: Time)
    requires forall i :: 0 <= i < |patches| ==> !PastRetention(ps, patches[i], now)
    ensures Unexpired(ps, patches, now) == patches
  {
    if patches != [] {
      ExpiredIff(ps, patches[|patches| - 1], now);
      AllKept(ps, patches[..|patches| - 1], now);
    }
  }

  lemma {:induction false} NoneKept(ps: Parsers, patches: seq<ReplicaPatch>, now: Time)
    requires forall i :: 0 <= i < |patches| ==> PastRetention(ps, patches[i], now)
    ensures Unexpired(ps, patches, now) == []
  {
    if patches != [] {
      ExpiredIff(ps, patches[|patches| - 1], now);
      NoneKept(ps, patches[..|patches| - 1], now);
    }
  }

  /** The purge leaves the patch, and its window holds the instant. */
  predicate Live(ps: Parsers, p: ReplicaPatch, now: Time, when: Time) {
    !PastRetention(ps, p, now) && WellFormed(ps, p) && Holds(ps, p, when)
  }

  /** The purge drops the patch, or the lookup passes over it. */
  predicate Skipped(ps: Parsers, p: ReplicaPatch, now: Time, when: Time) {
    PastRetention(ps, p, now) || PassedOver(ps, p, when)
  }

  /** The first patch that is not skipped is this one, and live. */
  ghost predicate FirstLive(ps: Parsers, patches: seq<ReplicaPatch>, now: Time, when: Time, p: ReplicaPatch) {
    exists i :: 0 <= i < |patches| && patches[i] == p && Live(ps, p, now, when)
                && forall k :: 0 <= k < i ==> Skipped(ps, patches[k], now, when)
  }

  lemma {:induction false} FirstLiveFromFront(ps: Parsers, patches: seq<ReplicaPatch>, now: Time, when: Time,
                                              p: ReplicaPatch)
    requires patches != []
    ensures FirstLive(ps, patches, now, when, p) <==>
              if Skipped(ps, patches[0], now, when) then FirstLive(ps, patches[1..], now, when, p)
              else patches[0] == p && Live(ps, p, now, when)
  {
    var rest := patches[1..];
    if FirstLive(ps, patches, now, when, p) {
      var i :| 0 <= i < |patches| && patches[i] == p && Live(ps, p, now, when)
               && forall k :: 0 <= k < i ==> Skipped(ps, patches[k], now, when);
      if i > 0 {
        assert Skipped(ps, patches[0], now, when);
        assert rest[i - 1] == p && forall k :: 0 <= k < i - 1 ==> rest[k] == patches[k + 1];
      }
    }
    if Skipped(ps, patches[0], now, when) && FirstLive(ps, rest, now, when, p) {
      var i :| 0 <= i < |rest| && rest[i] == p && Live(ps, p, now, when)
               && forall k :: 0 <= k < i ==> Skipped(ps, rest[k], now, when);
      assert patches[i + 1] == p && forall k :: 0 < k < i + 1 ==> patches[k] == rest[k - 1];
    }
  }

  /** A lookup after a purge, in terms of the list before it. */
  lemma {:induction false} SelectAfterPurge(ps: Parsers, patches: seq<ReplicaPatch>, now: Time, when: Time,
                                            p: ReplicaPatch)
    ensures Select(ps, Unexpired(ps, patches, now), when) == Ok(Some(p)) <==> FirstLive(ps, patches, now, when, p)
  {
    if patches != [] {
      var rest := patches[1..];
      UnexpiredFromFront(ps, patches, now);
      ExpiredIff(ps, patches[0], now);
      SchedulerMeans(ps, patches[0], when);
      SelectAfterPurge(ps, rest, now, when, p);
      FirstLiveFromFront(ps, patches, now, when, p);
      if PastRetention(ps, patches[0], now) {
        assert [] + Unexpired(ps, rest, now) == Unexpired(ps, rest, now);
      } else {
        assert ([patches[0]] + Unexpired(ps, rest, now))[1..] == Unexpired(ps, rest, now);
      }
    }
  }

  lemma {:induction false} UnexpiredFromFront(ps: Parsers, patches: seq<ReplicaPatch>, now: Time)
    requires patches != []
    ensures Unexpired(ps, patches, now) ==
            (if Expired(ps, patches[0], now) then [] else [patches[0]]) + Unexpired(ps, patches[1..], now)
    decreases |patches|
  {
    var n := |patches|;
    if n > 1 {
      var front := patches[..n - 1];
      UnexpiredFromFront(ps, front, now);
      assert front[1..] == patches[1..][..n - 2];
    } else {
      assert patches[..0] == [] && patches[1..] == [];
    }
  }

  /** A patch the purge drops matches nothing from then on, if its retention is not negative. */
  lemma ExpiredStaysOut(ps: Parsers, p: ReplicaPatch, now: Time, when: Time)
    requires DatesAreNotCron(ps)
    requires now <= when && p.retentionSeconds.GetOr(0) >= 0 && Expired(ps, p, now)
    ensures SchedulerOf(ps, p).Ok? ==> !SchedulerOf(ps, p).value.Contains(when)
  {
  }

  /**
   Purging changes no selection: whatever a purge at `now` removed, a lookup at any later time that
   succeeds without the purge returns the same patch, or the same none, with it.
   */
  lemma {:induction false} PurgePreservesSelection(ps: Parsers, patches: seq<ReplicaPatch>, now: Time, when: Time)
    requires DatesAreNotCron(ps) && now <= when
    requires forall i :: 0 <= i < |patches| ==> patches[i].retentionSeconds.GetOr(0) >= 0
    requires Select(ps, patches, when).Ok?
    ensures Select(ps, Unexpired(ps, patches, now), when) == Select(ps, patches, when)
    decreases |patches|
  {
    if patches != [] {
      UnexpiredFromFront(ps, patches, now);
      if Expired(ps, patches[0], now) {
        ExpiredStaysOut(ps, patches[0], now, when);
        assert [] + Unexpired(ps, patches[1..], now) == Unexpired(ps, patches[1..], now);
      } else {
        assert ([patches[0]] + Unexpired(ps, patches[1..], now))[1..] == Unexpired(ps, patches[1..], now);
      }
      if !SchedulerOf(ps, patches[0]).value.Contains(when) {
        PurgePreservesSelection(ps, patches[1..], now, when);
      }
    }
  }

  /** The retention condition is exact: some purge drops a date patch that still matches iff it is negative. */
  lemma PurgeDropsLivePatchIff(ps: Parsers, p: ReplicaPatch)
    requires SchedulerOf(ps, p).Ok? && SchedulerOf(ps, p).value.DateScheduler?
    ensures (exists now: Time, when: Time ::
               now <= when && Expired(ps, p, now) && SchedulerOf(ps, p).value.Contains(when))
            <==> p.retentionSeconds.GetOr(0) < 0
  {
    var e := SchedulerOf(ps, p).value.endTime;
    if Retention(p) < 0 {
      assert Expired(ps, p, e) && SchedulerOf(ps, p).value.Contains(e);
    }
  }

  /** Purging again later is purging once, later. */
  lemma {:induction false} PurgeTwice(ps: Parsers, patches: seq<ReplicaPatch>, t1: Time, t2: Time)
    requires t1 <= t2
    ensures Unexpired(ps, Unexpired(ps, patches, t1), t2) == Unexpired(ps, patches, t2)
    decreases |patches|
  {
    if patches != [] {
      var front, p := patches[..|patches| - 1], patches[|patches| - 1];
      PurgeTwice(ps, front, t1, t2);
      var once := Unexpired(ps, front, t1);
      assert (once + [p])[..|once|] == once;
    }
  }
}
